/** Prices written out: latencies, decode slots and operands of the cost table,
    and the cost of particular blocks (nub-exec `gas_cost.rs`). */
module KnownPrices {
  import opened Prelude
  import opened GasSim
  import opened GasCost
  import opened Isa

  // ---- Rows -----------------------------------------------------------------

  /** No operand in the two spilled slots. */
  predicate Unspilled(m: Meta) {
    Spilled(m.src1) == Spilled(m.src2) == Spilled(m.dst) == 0
  }

  /** Latency, decode slots and operands of everything but arithmetic. */
  lemma OtherPrices(i: Inst, memCycles: nat)
    requires Unspilled(MetaOf(i)) && memCycles < 256
    ensures i.Load? ==> OpOf(MetaOf(i), memCycles) == Op(memCycles, 1, Slot(i.rs1), 255, Slot(i.rd))
    ensures i.Store? ==> OpOf(MetaOf(i), memCycles) == Op(memCycles, 1, Slot(i.rs1), Slot(i.rs2), 255)
    ensures i.Branch? ==> OpOf(MetaOf(i), memCycles) == Op(20, 1, Slot(i.rs1), Slot(i.rs2), 255)
    ensures i.Jal? ==> OpOf(MetaOf(i), memCycles) == Op(15, 1, 255, 255, Slot(i.rd))
    ensures i.Jalr? ==> OpOf(MetaOf(i), memCycles) == Op(22, 1, Slot(i.rs1), 255, 255)
    ensures i.Lui? || i.Auipc? ==> OpOf(MetaOf(i), memCycles) == Op(1, 2, 255, 255, Slot(i.rd))
    ensures IsEcall(i) ==> OpOf(MetaOf(i), memCycles) == Op(100, 4, 255, 255, 255)
    ensures i.Fence? ==> OpOf(MetaOf(i), memCycles) == Op(1, 1, 255, 255, 255)
    ensures i.Trap? || i.Fallthrough? || i.Reserved? ==> OpOf(MetaOf(i), memCycles) == Op(2, 1, 255, 255, 255)
  {
    hide Slot, Spilled;
  }

  /** Latencies of arithmetic on one register, and on two, by cost row. */
  function UnaryLatency(kind: UnaryKind): nat {
    if kind in {12, 24, 30, 34, 36} then 1 else 2
  }

  function BinaryLatency(kind: BinaryKind): nat {
    if kind in {14, 15, 29, 33, 35} then 1
    else if kind in {17, 18, 27, 28, 31, 37} then 2
    else if kind in {16, 19, 26} then 3
    else if kind in {20, 21} then 4
    else if kind == 22 then 6
    else 60
  }

  /** Arithmetic waits for its registers, takes its latency, and takes a decode
      slot less where the row rewards writing over a source, or over the first. */
  lemma UnaryPrices(i: Inst, memCycles: nat)
    requires i.Unary? && Unspilled(MetaOf(i))
    ensures
      var op, over := OpOf(MetaOf(i), memCycles), Slot(i.rd) != 255 && Slot(i.rd) == Slot(i.rs1);
      && op == Op(UnaryLatency(i.unary), op.slots, Slot(i.rs1), 255, Slot(i.rd))
      && op.slots == if i.unary in {24, 25} then 1
                     else if i.unary in {13, 32} then if over then 2 else 3
                     else if over then 1 else 2
  {
    hide Slot, Spilled;
  }

  lemma BinaryPrices(i: Inst, memCycles: nat)
    requires i.Binary? && Unspilled(MetaOf(i))
    ensures
      var op := OpOf(MetaOf(i), memCycles);
      op == Op(BinaryLatency(i.binary), op.slots, Slot(i.rs1), Slot(i.rs2), Slot(i.rd))
  {
    hide Slot, Spilled;
  }

  lemma BinarySlots(i: Inst, memCycles: nat)
    requires i.Binary?
    ensures
      var slots, rd := OpOf(MetaOf(i), memCycles).slots, Slot(i.rd);
      var first, over := rd != 255 && rd == Slot(i.rs1), rd != 255 && (rd == Slot(i.rs1) || rd == Slot(i.rs2));
      && (i.binary in {14, 19, 33, 35} ==> slots == if over then 1 else 2)
      && (i.binary in {17, 20, 26, 28} ==> slots == if over then 2 else 3)
      && (i.binary in {15, 29} ==> slots == if first then 2 else 3)
      && (i.binary in {18, 31} ==> slots == if first then 3 else 4)
      && (i.binary in {16, 27} ==> slots == 3)
      && (i.binary in {21, 22, 23} ==> slots == 4)
      && (i.binary == 37 ==> slots == 2)
  {
    hide Slot, Spilled, Saturate8;
  }

  function Latency(i: Inst, memCycles: nat): nat {
    OpOf(MetaOf(i), memCycles).cycles
  }

  /** Each operand in `x3` or `x4` adds a memory access. */
  lemma SpillPrices()
    ensures Latency(Load(5, 3, 0, 8, true), 25) == 50 && Latency(Load(4, 5, 0, 8, true), 25) == 50
    ensures Latency(Store(5, 3, 0, 8), 25) == 50 && Latency(Store(3, 4, 0, 8), 25) == 75
  {
  }

  lemma SpillPricesElsewhere()
    ensures Latency(Lui(3, 0), 25) == 26 && Latency(Branch(Eq, 5, 4, 0), 25) == 45
    ensures Latency(Binary(23, 3, 4, 3, 0), 25) == 135 && Latency(Binary(23, 3, 4, 3, 0), 100) == 255
  {
  }

  /** One-slot instructions decode four to a cycle. */
  lemma {:induction false} FourPerCycle(ops: seq<Op>, i: nat)
    requires i < |ops| && forall k :: 0 <= k < |ops| ==> ops[k].slots == 1
    ensures DecodeCycle(ops, i) == i / 4 && DecodeState(ops, i + 1).1 == i % 4 + 1
  {
    if i > 0 {
      FourPerCycle(ops, i - 1);
    }
  }

  // ---- Three instructions ---------------------------------------------------

  /** When the first of two instructions decodes, the second does. */
  function SecondAt(a: Op): nat {
    if a.slots >= 4 then 1 else 0
  }

  function SlotsUsed(a: Op, b: Op): nat {
    if a.slots >= 4 then b.slots else a.slots + b.slots
  }

  /** When the second of two instructions is done: decoded, and what it reads
      written. */
  function SecondDone(a: Op, b: Op): nat {
    var wait := a.dst < 15 && (b.src1 == a.dst || b.src2 == a.dst);
    b.cycles + if wait then Max(SecondAt(a), a.cycles) else SecondAt(a)
  }

  /** When register `r` is ready after both: its last writer is done. */
  function ReadyAfter(a: Op, b: Op, r: nat): nat {
    if r >= 15 then 0 else if r == b.dst then SecondDone(a, b) else if r == a.dst then a.cycles else 0
  }

  function ThirdDone(a: Op, b: Op, c: Op): nat {
    var at := SecondAt(a) + if SlotsUsed(a, b) >= 4 then 1 else 0;
    c.cycles + Max(at, Max(ReadyAfter(a, b, c.src1), ReadyAfter(a, b, c.src2)))
  }

  predicate Small(op: Op) {
    op.slots <= 4 && op.cycles <= 255
  }

  /** Feeding an instruction, seen from register `r`. */
  lemma FedReady(s: Sim, op: Op, r: nat)
    requires GasSim.Valid(s)
    ensures
      var d, t := GasSim.Decode(s, op.slots), FedDirect(s, op);
      var done := Add32(Max(d.cycle, Max(Ready(s, op.src1), Ready(s, op.src2))), op.cycles);
      && t.cycle == d.cycle && t.decodeUsed == d.decodeUsed && t.maxDone == Max(s.maxDone, done)
      && Ready(t, r) == if r == op.dst && r < 15 then done else Ready(s, r)
  {
  }

  lemma ReadySmall(a: Op, b: Op, r: nat)
    requires Small(a) && Small(b)
    ensures ReadyAfter(a, b, r) <= 511 && SecondDone(a, b) <= 511
  {
  }

  lemma OneRun(a: Op, r: nat)
    requires Small(a)
    ensures
      var s := FedDirect(New(), a);
      && s.cycle == 0 && s.decodeUsed == a.slots && s.maxDone == a.cycles
      && Ready(s, r) == if r == a.dst && r < 15 then a.cycles else 0
  {
  }

  lemma TwoRun(a: Op, b: Op, r: nat)
    requires Small(a) && Small(b)
    ensures
      var s := FedDirect(FedDirect(New(), a), b);
      && s.cycle == SecondAt(a) && s.decodeUsed == SlotsUsed(a, b) && s.maxDone == Max(a.cycles, SecondDone(a, b))
      && Ready(s, r) == ReadyAfter(a, b, r)
  {
    hide FedDirect, Ready;
    OneRun(a, b.src1);
    OneRun(a, b.src2);
    OneRun(a, r);
    FedReady(FedDirect(New(), a), b, r);
  }

  /** The price of three instructions: the last one done, less three. */
  lemma ThreeRun(a: Op, b: Op, c: Op)
    requires Small(a) && Small(b) && Small(c)
    ensures FedDirect(FedDirect(FedDirect(New(), a), b), c).maxDone
         == Max(a.cycles, Max(SecondDone(a, b), ThirdDone(a, b, c)))
  {
    hide FedDirect, Ready, ReadyAfter, SecondDone;
    TwoRun(a, b, c.src1);
    TwoRun(a, b, c.src2);
    FedReady(FedDirect(FedDirect(New(), a), b), c, 0);
    ReadySmall(a, b, c.src1);
    ReadySmall(a, b, c.src2);
  }

  lemma ThreeFed(a: Inst, b: Inst, c: Inst, memCycles: nat)
    ensures
      var x, y, z := OpOf(MetaOf(a), memCycles), OpOf(MetaOf(b), memCycles), OpOf(MetaOf(c), memCycles);
      CostOf([a, b, c], memCycles) == Max(4, Max(x.cycles, Max(SecondDone(x, y), ThirdDone(x, y, z)))) - 3
  {
    hide OpOf, MetaOf, FedDirect, SecondDone, ThirdDone;
    var ops := OpsOf([a, b, c], memCycles);
    SlotsSmall(MetaOf(a), memCycles);
    SlotsSmall(MetaOf(b), memCycles);
    SlotsSmall(MetaOf(c), memCycles);
    assert ops[0] == OpOf(MetaOf(a), memCycles) && ops[1] == OpOf(MetaOf(b), memCycles);
    assert ops[2] == OpOf(MetaOf(c), memCycles);
    assert RunTo(ops, 0) == New();
    assert RunTo(ops, 1) == FedDirect(New(), ops[0]);
    assert RunTo(ops, 2) == FedDirect(FedDirect(New(), ops[0]), ops[1]);
    ThreeRun(ops[0], ops[1], ops[2]);
  }

  // ---- Blocks ---------------------------------------------------------------

  /** A register of the blocks below. */
  predicate Known(x: nat) {
    x in {0, 1, 5, 6, 7}
  }

  lemma KnownSlots()
    ensures Slot(0) == 255 && Slot(1) == 0 && Slot(5) == 2 && Slot(6) == 3 && Slot(7) == 4
  {
  }

  lemma KnownUnspilled(i: Inst)
    requires i.Load? || i.Unary? || i.Binary? || i.Store? || i.Branch? || i.Jalr? ==> Known(i.rs1)
    requires i.Binary? || i.Store? || i.Branch? ==> Known(i.rs2)
    requires i.Load? || i.Unary? || i.Binary? || i.Lui? || i.Auipc? || i.Jal? ==> Known(i.rd)
    ensures Unspilled(MetaOf(i))
  {
    hide MetaOf;
    NamedOperands(i);
  }

  /** An instruction of the blocks below, at 25 cycles a memory access. */
  lemma KnownInst(i: Inst)
    requires i.Load? || i.Store? || i.Branch? || i.Jalr? || i.Binary?
    requires Known(i.rs1) && (i.Load? || i.Binary? ==> Known(i.rd))
    requires i.Store? || i.Branch? || i.Binary? ==> Known(i.rs2)
    ensures
      var op := OpOf(MetaOf(i), 25);
      && op.src1 == Slot(i.rs1) && op.src2 == (if i.Load? || i.Jalr? then 255 else Slot(i.rs2))
      && op.dst == (if i.Load? || i.Binary? then Slot(i.rd) else 255)
      && op.cycles == (if i.Branch? then 20 else if i.Jalr? then 22 else if i.Binary? then BinaryLatency(i.binary) else 25)
      && (!i.Binary? ==> op.slots == 1)
      && (i.Binary? && i.binary == 23 ==> op.slots == 4)
      && (i.Binary? && i.binary == 19 && i.rd !in {i.rs1, i.rs2} ==> op.slots == 2)
  {
    hide OpOf, MetaOf;
    KnownUnspilled(i);
    if i.Binary? {
      BinaryPrices(i, 25);
      BinarySlots(i, 25);
    } else {
      OtherPrices(i, 25);
    }
  }

  /** `lw x5, 0(x6)`, then `lw x7` through `x5` and through `x6`, then
      `jalr x0, 0(x1)`. */
  lemma LoadPrices()
    ensures CostOf([Load(5, 6, 0, 4, true), Load(7, 5, 0, 4, true), Jalr(0, 1, 0)], 25) == 47
    ensures CostOf([Load(5, 6, 0, 4, true), Load(7, 6, 0, 4, true), Jalr(0, 1, 0)], 25) == 22
  {
    hide CostOf, OpOf, MetaOf, Slot;
    KnownSlots();
    var a, b, c, j := Load(5, 6, 0, 4, true), Load(7, 5, 0, 4, true), Load(7, 6, 0, 4, true), Jalr(0, 1, 0);
    KnownInst(a);
    KnownInst(b);
    KnownInst(c);
    KnownInst(j);
    ThreeFed(a, b, j, 25);
    ThreeFed(a, c, j, 25);
  }

  /** A store waits for its base and for its value, and not for a store. */
  lemma StorePrices()
    ensures CostOf([Load(5, 6, 0, 8, true), Store(5, 7, 0, 8), Jalr(0, 1, 0)], 25) == 47
    ensures CostOf([Load(5, 6, 0, 8, true), Store(7, 5, 0, 8), Jalr(0, 1, 0)], 25) == 47
    ensures CostOf([Store(5, 7, 0, 8), Store(5, 6, 8, 8), Jalr(0, 1, 0)], 25) == 22
  {
    hide CostOf, OpOf, MetaOf, Slot;
    KnownSlots();
    var a, b, c, d, j := Load(5, 6, 0, 8, true), Store(5, 7, 0, 8), Store(7, 5, 0, 8), Store(5, 6, 8, 8), Jalr(0, 1, 0);
    KnownInst(a);
    KnownInst(b);
    KnownInst(c);
    KnownInst(d);
    KnownInst(j);
    ThreeFed(a, b, j, 25);
    ThreeFed(a, c, j, 25);
    ThreeFed(b, d, j, 25);
  }

  /** A branch waits for either register, `jalr` for its target. */
  lemma BranchPrices()
    ensures CostOf([Load(5, 6, 0, 8, true), Load(7, 6, 8, 8, true), Branch(Eq, 5, 0, 8)], 25) == 42
    ensures CostOf([Load(5, 6, 0, 8, true), Load(7, 6, 8, 8, true), Branch(Eq, 1, 7, 8)], 25) == 42
    ensures CostOf([Load(5, 6, 0, 8, true), Load(7, 6, 8, 8, true), Jalr(0, 5, 0)], 25) == 44
  {
    hide CostOf, OpOf, MetaOf, Slot;
    KnownSlots();
    var a, b := Load(5, 6, 0, 8, true), Load(7, 6, 8, 8, true);
    var c, d, j := Branch(Eq, 5, 0, 8), Branch(Eq, 1, 7, 8), Jalr(0, 5, 0);
    KnownInst(a);
    KnownInst(b);
    KnownInst(c);
    KnownInst(d);
    KnownInst(j);
    ThreeFed(a, b, c, 25);
    ThreeFed(a, b, d, 25);
    ThreeFed(a, b, j, 25);
  }

  /** `mul x5, x6, x7` and `div x5, x6, x7`, their products and quotients used. */
  lemma MulDivPrices()
    ensures CostOf([Binary(19, 5, 6, 7, 0), Binary(19, 7, 5, 6, 0), Branch(Ne, 7, 0, 8)], 25) == 23
    ensures CostOf([Binary(19, 5, 6, 7, 0), Store(6, 5, 0, 8), Branch(Ne, 7, 0, 8)], 25) == 25
    ensures CostOf([Binary(23, 5, 6, 7, 0), Store(6, 5, 0, 8), Branch(Ne, 7, 0, 8)], 25) == 82
    ensures CostOf([Binary(23, 5, 6, 7, 0), Binary(19, 7, 5, 6, 0), Branch(Ne, 7, 0, 8)], 25) == 80
  {
    hide CostOf, OpOf, MetaOf, Slot;
    KnownSlots();
    var a, b, c := Binary(19, 5, 6, 7, 0), Binary(19, 7, 5, 6, 0), Binary(23, 5, 6, 7, 0);
    var d, e := Store(6, 5, 0, 8), Branch(Ne, 7, 0, 8);
    KnownInst(a);
    KnownInst(b);
    KnownInst(c);
    KnownInst(d);
    KnownInst(e);
    ThreeFed(a, b, e, 25);
    ThreeFed(a, d, e, 25);
    ThreeFed(c, d, e, 25);
    ThreeFed(c, b, e, 25);
  }
}
