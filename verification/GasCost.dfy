/** Per-instruction cost rows, block costs and block reserves (nub-exec
    `gas_cost.rs`). */
module GasCost {
  import opened Prelude
  import opened GasSim
  import opened Isa
  import Mat

  const DEFAULT_MEM_CYCLES: nat := 25

  datatype Unit = NoUnit | AluUnit | LoadUnit | StoreUnit | MulUnit | DivUnit

  datatype Slots = Fixed(n: nat) | IfDstIsSrc(yes: nat, no: nat) | IfDstIsSrc1(yes: nat, no: nat)

  /** One row of the cost table. */
  datatype Row = Row(cycles: nat, slots: Slots, exec: Unit, srcs: nat, dsts: nat, term: bool)

  function RowOf(kind: nat): Row {
    match kind
    case 3 => Row(100, Fixed(4), AluUnit, 0, 0, true)
    case 4 => Row(100, Fixed(4), AluUnit, 0, 0, true)
    case 5 => Row(22, Fixed(1), AluUnit, 1, 0, true)
    case 6 => Row(1, Fixed(1), NoUnit, 0, 0, false)
    case 7 => Row(15, Fixed(1), AluUnit, 0, 1, true)
    case 8 => Row(20, Fixed(1), AluUnit, 2, 0, true)
    case 9 => Row(25, Fixed(1), LoadUnit, 1, 1, false)
    case 10 => Row(25, Fixed(1), StoreUnit, 2, 0, false)
    case 11 => Row(1, Fixed(2), NoUnit, 0, 1, false)
    case 12 => Row(1, IfDstIsSrc(1, 2), AluUnit, 1, 1, false)
    case 13 => Row(2, IfDstIsSrc(2, 3), AluUnit, 1, 1, false)
    case 14 => Row(1, IfDstIsSrc(1, 2), AluUnit, 2, 1, false)
    case 15 => Row(1, IfDstIsSrc1(2, 3), AluUnit, 2, 1, false)
    case 16 => Row(3, Fixed(3), AluUnit, 2, 1, false)
    case 17 => Row(2, IfDstIsSrc(2, 3), AluUnit, 2, 1, false)
    case 18 => Row(2, IfDstIsSrc1(3, 4), AluUnit, 2, 1, false)
    case 19 => Row(3, IfDstIsSrc(1, 2), MulUnit, 2, 1, false)
    case 20 => Row(4, IfDstIsSrc(2, 3), MulUnit, 2, 1, false)
    case 21 => Row(4, Fixed(4), MulUnit, 2, 1, false)
    case 22 => Row(6, Fixed(4), MulUnit, 2, 1, false)
    case 23 => Row(60, Fixed(4), DivUnit, 2, 1, false)
    case 24 => Row(1, Fixed(1), AluUnit, 1, 1, false)
    case 25 => Row(2, Fixed(1), AluUnit, 1, 1, false)
    case 26 => Row(3, IfDstIsSrc(2, 3), AluUnit, 2, 1, false)
    case 27 => Row(2, Fixed(3), AluUnit, 2, 1, false)
    case 28 => Row(2, IfDstIsSrc(2, 3), AluUnit, 2, 1, false)
    case 29 => Row(1, IfDstIsSrc1(2, 3), AluUnit, 2, 1, false)
    case 30 => Row(1, IfDstIsSrc(1, 2), AluUnit, 1, 1, false)
    case 31 => Row(2, IfDstIsSrc1(3, 4), AluUnit, 2, 1, false)
    case 32 => Row(2, IfDstIsSrc(2, 3), AluUnit, 1, 1, false)
    case 33 => Row(1, IfDstIsSrc(1, 2), AluUnit, 2, 1, false)
    case 34 => Row(1, IfDstIsSrc(1, 2), AluUnit, 1, 1, false)
    case 35 => Row(1, IfDstIsSrc(1, 2), AluUnit, 2, 1, false)
    case 36 => Row(1, IfDstIsSrc(1, 2), AluUnit, 1, 1, false)
    case 37 => Row(2, Fixed(2), AluUnit, 2, 1, false)
    // reserved, trap, fallthrough and every unused row
    case _ => Row(2, Fixed(1), NoUnit, 0, 0, true)
  }

  /** Cost row and named registers of an instruction. */
  datatype Named = Named(kind: nat, rs1: nat, rs2: nat, rd: nat)

  function Operands(i: Inst): Named {
    match i
    case Reserved => Named(0, 0, 0, 0)
    case Trap => Named(1, 0, 0, 0)
    case Fallthrough => Named(2, 0, 0, 0)
    case EcallJar => Named(3, 0, 0, 0)
    case Ecalli(_) => Named(4, 0, 0, 0)
    case Jalr(_, rs1, _) => Named(5, rs1, 0, 0)
    case Fence => Named(6, 0, 0, 0)
    case Jal(rd, _) => Named(7, 0, 0, rd)
    case Branch(_, rs1, rs2, _) => Named(8, rs1, rs2, 0)
    case Load(rd, rs1, _, _, _) => Named(9, rs1, 0, rd)
    case Store(rs1, rs2, _, _) => Named(10, rs1, rs2, 0)
    case Lui(rd, _) => Named(11, 0, 0, rd)
    case Auipc(rd, _) => Named(11, 0, 0, rd)
    case Unary(kind, rd, rs1, _) => Named(kind, rs1, 0, rd)
    case Binary(kind, rd, rs1, rs2, _) => Named(kind, rs1, rs2, rd)
  }

  /** The two independent terminator classifiers agree: the table flag the
      recompiler reads and the match predecode marks block starts with. */
  lemma TerminatorFlagsAgree(i: Inst)
    ensures RowOf(Operands(i).kind).term <==> IsTerminator(i)
  {
    match i
    case Unary(kind, _, _, _) => assert !RowOf(kind).term;
    case Binary(kind, _, _, _, _) => assert !RowOf(kind).term;
    case _ =>
  }

  /** Pre-masked gas metadata (`rv_gas_meta`). */
  datatype Meta = Meta(kind: nat, src1: nat, src2: nat, dst: nat)

  function MetaOf(i: Inst): Meta {
    var Named(kind, rs1, rs2, rd) := Operands(i);
    var row := RowOf(kind);
    Meta(kind,
         if row.srcs >= 1 then Slot(rs1) else 255,
         if row.srcs == 2 then Slot(rs2) else 255,
         if row.dsts == 1 then Slot(rd) else 255)
  }

  /** The operands the gas model names: both of a register, and none of an absent
      one. */
  lemma NamedOperands(i: Inst)
    ensures i.Load? || i.Unary? || i.Binary? || i.Store? || i.Branch? || i.Jalr? ==> MetaOf(i).src1 == Slot(i.rs1)
    ensures i.Binary? || i.Store? || i.Branch? ==> MetaOf(i).src2 == Slot(i.rs2)
    ensures i.Load? || i.Unary? || i.Binary? || i.Lui? || i.Auipc? || i.Jal? ==> MetaOf(i).dst == Slot(i.rd)
    ensures !(i.Load? || i.Unary? || i.Binary? || i.Store? || i.Branch? || i.Jalr?) ==> MetaOf(i).src1 == 255
    ensures !(i.Binary? || i.Store? || i.Branch?) ==> MetaOf(i).src2 == 255
    ensures !(i.Load? || i.Unary? || i.Binary? || i.Lui? || i.Auipc? || i.Jal?) ==> MetaOf(i).dst == 255
  {
    hide Slot;
  }

  /** Operand positions held in the two host-spilled slots. */
  function Spilled(slot: nat): nat {
    if slot == 13 || slot == 14 then 1 else 0
  }

  function Saturate8(n: nat): nat {
    Min(n, 255)
  }

  /** What one instruction feeds the simulator (`rv_feed_gas_kind`). */
  function OpOf(m: Meta, memCycles: nat): Op {
    var row := RowOf(m.kind);
    var base := if row.exec == LoadUnit || row.exec == StoreUnit then memCycles else row.cycles;
    var spills := Spilled(m.src1) + Spilled(m.src2) + Spilled(m.dst);
    var slots := match row.slots
      case Fixed(n) => n
      case IfDstIsSrc(yes, no) => if m.dst != 255 && (m.dst == m.src1 || m.dst == m.src2) then yes else no
      case IfDstIsSrc1(yes, no) => if m.dst != 255 && m.src1 != 255 && m.dst == m.src1 then yes else no;
    Op(Saturate8(base + Saturate8(memCycles * spills)), slots, m.src1, m.src2, m.dst)
  }

  function OpsOf(block: seq<Inst>, memCycles: nat): (ops: seq<Op>)
    ensures |ops| == |block|
  {
    seq(|block|, k requires 0 <= k < |block| => OpOf(MetaOf(block[k]), memCycles))
  }

  /** Cost of a block given its instructions. */
  function CostOf(block: seq<Inst>, memCycles: nat): (c: nat)
    ensures c >= 1
  {
    BlockCost(RunTo(OpsOf(block, memCycles), |block|))
  }

  lemma SlotsSmall(m: Meta, memCycles: nat)
    ensures OpOf(m, memCycles).slots <= 4 && OpOf(m, memCycles).cycles <= 255
  {
  }

  lemma {:induction false} SmallBudget(ops: seq<Op>, n: nat)
    requires n <= |ops| && forall k :: 0 <= k < |ops| ==> ops[k].cycles <= 255
    ensures Budget(ops, n) <= 256 * n
  {
    if n > 0 {
      SmallBudget(ops, n - 1);
    }
  }

  lemma BlockSlots(block: seq<Inst>, memCycles: nat)
    ensures SmallSlots(OpsOf(block, memCycles))
    ensures forall k :: 0 <= k < |block| ==> OpsOf(block, memCycles)[k].cycles <= 255
  {
    hide OpOf, MetaOf;
    forall k | 0 <= k < |block| ensures OpsOf(block, memCycles)[k].slots <= 252 && OpsOf(block, memCycles)[k].cycles <= 255 {
      SlotsSmall(MetaOf(block[k]), memCycles);
    }
  }

  /** Every block of fewer than 2^24 instructions fits the 32-bit counters. */
  lemma BlocksFit(block: seq<Inst>, memCycles: nat)
    requires |block| < 0x100_0000
    ensures Fits(OpsOf(block, memCycles))
  {
    hide OpsOf, Fits, SmallSlots;
    var ops := OpsOf(block, memCycles);
    BlockSlots(block, memCycles);
    SmallBudget(ops, |ops|);
    SmallFits(ops);
  }

  /** One `lw x3, 0(x3)` at the default latency: two spilled operands make 75. */
  const SERIAL_LOAD: Inst := Load(3, 3, 0, 4, true)

  function SerialLoads(n: nat): (block: seq<Inst>)
    ensures |block| == n && forall k :: 0 <= k < n ==> block[k] == SERIAL_LOAD
  {
    seq(n, _ => SERIAL_LOAD)
  }

  /** A block within the permitted code size whose counters do overflow: enough
      four-byte loads, each waiting for the one before it. */
  lemma CountersWrap(n: nat)
    requires 75 * n >= 0x1_0000_0000 && 4 * n <= MAX_CODE_SIZE
    ensures
      var ops := OpsOf(SerialLoads(n), DEFAULT_MEM_CYCLES);
      !Fits(ops) && !IsLongest(ops, RunTo(ops, n).maxDone)
  {
    hide MaxFinish, RunTo, IsLongest, Finish;
    var ops := OpsOf(SerialLoads(n), DEFAULT_MEM_CYCLES);
    var op := OpOf(MetaOf(SERIAL_LOAD), DEFAULT_MEM_CYCLES);
    assert op.cycles == 75 && op.src1 == op.dst == 13;
    SerialFinish(ops, op, n - 1);
    MaxFinishMono(ops, n - 1, n);
    BlockSlots(SerialLoads(n), DEFAULT_MEM_CYCLES);
    LongestChain(ops);
  }

  lemma SlowerOp(m: Meta, fast: nat, slow: nat)
    requires fast <= slow
    ensures OpOf(m, fast).cycles <= OpOf(m, slow).cycles
    ensures OpOf(m, slow) == OpOf(m, fast).(cycles := OpOf(m, slow).cycles)
  {
    var spills := Spilled(m.src1) + Spilled(m.src2) + Spilled(m.dst);
    assert fast * spills <= slow * spills;
  }

  /** Raising the memory latency never lowers a block's cost. */
  lemma MemCyclesMonotone(block: seq<Inst>, fast: nat, slow: nat)
    requires fast <= slow && Fits(OpsOf(block, slow))
    ensures CostOf(block, fast) <= CostOf(block, slow)
  {
    hide OpOf, MetaOf, Fits;
    var a, b := OpsOf(block, fast), OpsOf(block, slow);
    forall k | 0 <= k < |a| ensures a[k].cycles <= b[k].cycles && b[k] == a[k].(cycles := b[k].cycles) {
      SlowerOp(MetaOf(block[k]), fast, slow);
    }
    SlowerCostsMore(a, b);
  }

  /** Block price: the heaviest dependency chain less three, and at least one. */
  lemma CostIsLongestChain(block: seq<Inst>, memCycles: nat)
    requires 0 < |block| && Fits(OpsOf(block, memCycles))
    ensures forall c :: Chain(OpsOf(block, memCycles), c) ==>
      Weight(OpsOf(block, memCycles), c) <= CostOf(block, memCycles) + 3
    ensures
      || CostOf(block, memCycles) == 1
      || (exists c :: Chain(OpsOf(block, memCycles), c) && Weight(OpsOf(block, memCycles), c) == CostOf(block, memCycles) + 3)
  {
    hide Fits, RunTo, OpsOf, Chain, Weight, SmallSlots;
    BlockSlots(block, memCycles);
    LongestChain(OpsOf(block, memCycles));
  }

  /** Worst-case first-write charge of one instruction (`rv_kind_reserve`). */
  function ReserveOf(i: Inst): (r: nat)
    ensures r == if i.Store? then 512 else 0
  {
    match RowOf(MetaOf(i).kind).exec
    case StoreUnit => Min(Mat.COW_COST * Mat.MAX_PAGES_PER_ACCESS, 0xFFFF_FFFF)
    case _ => 0
  }
}
