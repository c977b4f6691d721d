/** Single-pass pipeline gas model (nub-exec `gas_sim.rs`).

    The simulator keeps one completion cycle per register and a running maximum.
    The theorem: that maximum is the weight of the heaviest register-dependency
    chain of the block. */
module GasSim {
  import opened Prelude

  /** One fed instruction; a register number below 15 names a register, anything
      else means "none". */
  datatype Op = Op(cycles: nat, slots: nat, src1: nat, src2: nat, dst: nat)

  datatype Sim = Sim(regDone: seq<nat>, cycle: nat, decodeUsed: nat, maxDone: nat)

  predicate Valid(s: Sim) {
    |s.regDone| == 15
  }

  function Add32(a: nat, b: nat): nat {
    (a + b) % 0x1_0000_0000
  }

  function Add8(a: nat, b: nat): nat {
    (a + b) % 0x100
  }

  function New(): Sim {
    Sim(seq(15, _ => 0), 0, 0, 0)
  }

  /** Decode throughput: a cycle passes only once all four slots are used. */
  function Decode(s: Sim, slots: nat): Sim {
    if s.decodeUsed >= 4 then s.(cycle := Add32(s.cycle, 1), decodeUsed := slots)
    else s.(decodeUsed := Add8(s.decodeUsed, slots))
  }

  function Ready(s: Sim, r: nat): nat
    requires Valid(s)
  {
    if r < 15 then s.regDone[r] else 0
  }

  function Complete(s: Sim, dst: nat, done: nat): Sim
    requires Valid(s)
  {
    s.(regDone := if dst < 15 then s.regDone[dst := done] else s.regDone, maxDone := Max(s.maxDone, done))
  }

  /** `feed_direct`. */
  function FedDirect(s: Sim, op: Op): (r: Sim)
    requires Valid(s)
    ensures Valid(r)
  {
    var d := Decode(s, op.slots);
    Complete(d, op.dst, Add32(Max(d.cycle, Max(Ready(d, op.src1), Ready(d, op.src2))), op.cycles))
  }

  /** `flush_and_get_cost`: never zero. */
  function BlockCost(s: Sim): (c: nat)
    ensures c >= 1
    ensures s.maxDone >= 4 ==> c + 3 == s.maxDone
  {
    if s.maxDone > 3 then s.maxDone - 3 else 1
  }

  /** The simulator after the first `n` instructions of a block. */
  function RunTo(ops: seq<Op>, n: nat): (s: Sim)
    requires n <= |ops|
    ensures Valid(s)
  {
    if n == 0 then New() else FedDirect(RunTo(ops, n - 1), ops[n - 1])
  }

  // ---- Dependency chains ----------------------------------------------------

  /** Decode cycle and slots used after the first `n` instructions, without
      machine-word limits. */
  function DecodeState(ops: seq<Op>, n: nat): (nat, nat)
    requires n <= |ops|
  {
    if n == 0 then (0, 0)
    else
      var (c, u) := DecodeState(ops, n - 1);
      if u >= 4 then (c + 1, ops[n - 1].slots) else (c, u + ops[n - 1].slots)
  }

  function DecodeCycle(ops: seq<Op>, i: nat): nat
    requires i < |ops|
  {
    DecodeState(ops, i + 1).0
  }

  /** The last instruction before `n` that writes register `r`. */
  function LastWriter(ops: seq<Op>, n: nat, r: nat): (w: Option<nat>)
    requires n <= |ops|
    ensures w.Some? ==> w.value < n && ops[w.value].dst == r && forall k :: w.value < k < n ==> ops[k].dst != r
    ensures w.None? ==> forall k :: 0 <= k < n ==> ops[k].dst != r
  {
    if n == 0 then None
    else if ops[n - 1].dst == r then Some(n - 1)
    else LastWriter(ops, n - 1, r)
  }

  /** Instruction `i` reads a register that `j` wrote last. */
  predicate DependsOn(ops: seq<Op>, i: nat, j: nat)
    requires i < |ops|
  {
    || (ops[i].src1 < 15 && LastWriter(ops, i, ops[i].src1) == Some(j))
    || (ops[i].src2 < 15 && LastWriter(ops, i, ops[i].src2) == Some(j))
  }

  /** A chain of instructions, each depending on the one before it. */
  predicate Chain(ops: seq<Op>, c: seq<nat>) {
    && |c| > 0
    && (forall k :: 0 <= k < |c| ==> c[k] < |ops|)
    && (forall k :: 0 < k < |c| ==> DependsOn(ops, c[k], c[k - 1]))
  }

  /** Decode cycle of the first instruction plus all latencies. */
  function Weight(ops: seq<Op>, c: seq<nat>): nat
    requires |c| > 0 && forall k :: 0 <= k < |c| ==> c[k] < |ops|
  {
    var last := |c| - 1;
    ops[c[last]].cycles + if last == 0 then DecodeCycle(ops, c[0]) else Weight(ops, c[..last])
  }

  function Budget(ops: seq<Op>, n: nat): nat
    requires n <= |ops|
  {
    if n == 0 then 0 else Budget(ops, n - 1) + ops[n - 1].cycles + 1
  }

  // ---- Completion cycles ----------------------------------------------------

  /** Completion cycle of instruction `i`, through its last writers. */
  function Finish(ops: seq<Op>, i: nat): nat
    requires i < |ops|
    decreases i, 1
  {
    Max(DecodeCycle(ops, i), Max(ReadyAt(ops, i, ops[i].src1), ReadyAt(ops, i, ops[i].src2))) + ops[i].cycles
  }

  function ReadyAt(ops: seq<Op>, n: nat, r: nat): nat
    requires n <= |ops|
    decreases n, 0
  {
    if r >= 15 then 0
    else
      match LastWriter(ops, n, r)
      case None => 0
      case Some(j) => Finish(ops, j)
  }

  function MaxFinish(ops: seq<Op>, n: nat): nat
    requires n <= |ops|
  {
    if n == 0 then 0 else Max(MaxFinish(ops, n - 1), Finish(ops, n - 1))
  }

  lemma {:induction false} BudgetMono(ops: seq<Op>, m: nat, n: nat)
    requires m <= n <= |ops|
    ensures Budget(ops, m) <= Budget(ops, n)
    decreases n - m
  {
    if m < n {
      BudgetMono(ops, m, n - 1);
    }
  }

  lemma {:induction false} DecodeBound(ops: seq<Op>, n: nat)
    requires n <= |ops|
    ensures DecodeState(ops, n).0 <= Budget(ops, n)
  {
    if n > 0 {
      DecodeBound(ops, n - 1);
    }
  }

  lemma {:induction false} ReadyBound(ops: seq<Op>, n: nat, r: nat)
    requires n <= |ops|
    ensures ReadyAt(ops, n, r) <= Budget(ops, n)
    decreases n
  {
    if r < 15 && LastWriter(ops, n, r).Some? {
      var j := LastWriter(ops, n, r).value;
      DecodeBound(ops, j);
      ReadyBound(ops, j, ops[j].src1);
      ReadyBound(ops, j, ops[j].src2);
      BudgetMono(ops, j + 1, n);
    }
  }

  lemma {:induction false} FinishBound(ops: seq<Op>, i: nat)
    requires i < |ops|
    ensures Finish(ops, i) <= Budget(ops, i + 1)
  {
    DecodeBound(ops, i);
    ReadyBound(ops, i, ops[i].src1);
    ReadyBound(ops, i, ops[i].src2);
  }

  lemma {:induction false} MaxFinishBound(ops: seq<Op>, n: nat)
    requires n <= |ops|
    ensures MaxFinish(ops, n) <= Budget(ops, n)
  {
    if n > 0 {
      MaxFinishBound(ops, n - 1);
      FinishBound(ops, n - 1);
    }
  }

  predicate SmallSlots(ops: seq<Op>) {
    forall k :: 0 <= k < |ops| ==> ops[k].slots <= 252
  }

  /** No completion cycle overflows the simulator's 32-bit counters. */
  predicate Fits(ops: seq<Op>) {
    SmallSlots(ops) && MaxFinish(ops, |ops|) < 0x1_0000_0000
  }

  /** As in any block with a small enough budget. */
  lemma SmallFits(ops: seq<Op>)
    requires SmallSlots(ops) && Budget(ops, |ops|) < 0x1_0000_0000
    ensures Fits(ops)
  {
    MaxFinishBound(ops, |ops|);
  }

  lemma {:induction false} MaxFinishMono(ops: seq<Op>, i: nat, n: nat)
    requires i < n <= |ops|
    ensures Finish(ops, i) <= MaxFinish(ops, n)
    decreases n
  {
    hide Finish;
    if i < n - 1 {
      MaxFinishMono(ops, i, n - 1);
    }
  }

  predicate Tracks(ops: seq<Op>, n: nat, s: Sim)
    requires n <= |ops|
  {
    && Valid(s)
    && (s.cycle, s.decodeUsed) == DecodeState(ops, n)
    && (forall r :: 0 <= r < 15 ==> s.regDone[r] == ReadyAt(ops, n, r))
    && s.maxDone == MaxFinish(ops, n)
  }

  /** Feeding instruction `n` moves a register's ready cycle only if it is the target. */
  lemma ReadyStep(ops: seq<Op>, n: nat, r: nat)
    requires n < |ops| && r < 15
    ensures ReadyAt(ops, n + 1, r) == if ops[n].dst == r then Finish(ops, n) else ReadyAt(ops, n, r)
  {
    hide Finish;
  }

  lemma DecodeFits(ops: seq<Op>, n: nat, s: Sim)
    requires n < |ops| && Fits(ops) && (s.cycle, s.decodeUsed) == DecodeState(ops, n)
    ensures (Decode(s, ops[n].slots).cycle, Decode(s, ops[n].slots).decodeUsed) == DecodeState(ops, n + 1)
  {
    hide MaxFinish, ReadyAt;
    MaxFinishMono(ops, n, |ops|);
    assert DecodeState(ops, n + 1).0 <= Finish(ops, n);
  }

  lemma NoRegister(ops: seq<Op>, n: nat)
    requires n <= |ops|
    ensures forall r: nat :: r >= 15 ==> ReadyAt(ops, n, r) == 0
  {
    hide Finish;
  }

  lemma FinishFits(ops: seq<Op>, n: nat)
    requires n < |ops| && Fits(ops)
    ensures Finish(ops, n) < 0x1_0000_0000
  {
    hide Finish;
    MaxFinishMono(ops, n, |ops|);
  }

  lemma FeedTracks(ops: seq<Op>, n: nat, s: Sim)
    requires n < |ops| && Fits(ops) && Tracks(ops, n, s)
    ensures Tracks(ops, n + 1, FedDirect(s, ops[n]))
  {
    hide Fits, ReadyAt, DecodeState;
    DecodeFits(ops, n, s);
    FinishFits(ops, n);
    NoRegister(ops, n);
    var d := Decode(s, ops[n].slots);
    assert Ready(d, ops[n].src1) == ReadyAt(ops, n, ops[n].src1);
    assert Ready(d, ops[n].src2) == ReadyAt(ops, n, ops[n].src2);
    assert FedDirect(s, ops[n]) == Complete(d, ops[n].dst, Finish(ops, n));
    forall r | 0 <= r < 15 ensures Complete(d, ops[n].dst, Finish(ops, n)).regDone[r] == ReadyAt(ops, n + 1, r) {
      ReadyStep(ops, n, r);
    }
  }

  lemma NewTracks(ops: seq<Op>)
    ensures Tracks(ops, 0, New())
  {
  }

  /** Without overflow the simulator tracks exactly the completion cycles. */
  lemma {:induction false} RunTracks(ops: seq<Op>, n: nat)
    requires n <= |ops| && Fits(ops)
    ensures Tracks(ops, n, RunTo(ops, n))
  {
    hide Fits, FedDirect, Tracks, New;
    if n == 0 {
      NewTracks(ops);
    } else {
      RunTracks(ops, n - 1);
      FeedTracks(ops, n - 1, RunTo(ops, n - 1));
    }
  }

  // ---- The theorem ----------------------------------------------------------

  /** No chain outweighs the completion cycle of its last instruction. */
  lemma {:induction false} ChainBelowFinish(ops: seq<Op>, c: seq<nat>)
    requires Chain(ops, c)
    ensures Weight(ops, c) <= Finish(ops, c[|c| - 1])
    decreases |c|
  {
    var last := |c| - 1;
    if last > 0 {
      ChainBelowFinish(ops, c[..last]);
      assert DependsOn(ops, c[last], c[last - 1]);
    }
  }

  /** Some chain ending at `i` reaches it. */
  lemma {:induction false} FinishChain(ops: seq<Op>, i: nat) returns (c: seq<nat>)
    requires i < |ops|
    ensures Chain(ops, c) && c[|c| - 1] == i && Weight(ops, c) == Finish(ops, i)
    decreases i
  {
    hide DecodeState;
    var r1, r2 := ReadyAt(ops, i, ops[i].src1), ReadyAt(ops, i, ops[i].src2);
    var d := DecodeCycle(ops, i);
    if d >= r1 && d >= r2 {
      c := [i];
    } else {
      var j := LastWriter(ops, i, if r1 >= r2 then ops[i].src1 else ops[i].src2).value;
      var b := FinishChain(ops, j);
      c := b + [i];
      assert c[..|c| - 1] == b;
      assert DependsOn(ops, i, j);
    }
  }

  lemma {:induction false} MaxFinishIsMax(ops: seq<Op>, n: nat) returns (i: nat)
    requires 0 < n <= |ops|
    ensures i < n && Finish(ops, i) == MaxFinish(ops, n)
    ensures forall k :: 0 <= k < n ==> Finish(ops, k) <= MaxFinish(ops, n)
  {
    if n == 1 {
      i := 0;
    } else {
      i := MaxFinishIsMax(ops, n - 1);
      if Finish(ops, n - 1) > Finish(ops, i) {
        i := n - 1;
      }
    }
  }

  /** `m` is the weight of the heaviest dependency chain. */
  ghost predicate IsLongest(ops: seq<Op>, m: nat) {
    && (forall c :: Chain(ops, c) ==> Weight(ops, c) <= m)
    && (exists c :: Chain(ops, c) && Weight(ops, c) == m)
  }

  lemma MaxFinishLongest(ops: seq<Op>)
    requires |ops| > 0
    ensures IsLongest(ops, MaxFinish(ops, |ops|))
  {
    hide Finish, Weight;
    var i := MaxFinishIsMax(ops, |ops|);
    var best := FinishChain(ops, i);
    forall c | Chain(ops, c) ensures Weight(ops, c) <= MaxFinish(ops, |ops|) {
      ChainBelowFinish(ops, c);
    }
  }

  lemma LongestUnique(ops: seq<Op>, a: nat, b: nat)
    requires IsLongest(ops, a) && IsLongest(ops, b)
    ensures a == b
  {
  }

  lemma {:induction false} MaxDoneSmall(ops: seq<Op>, n: nat)
    requires n <= |ops|
    ensures RunTo(ops, n).maxDone < 0x1_0000_0000
  {
    if n > 0 {
      MaxDoneSmall(ops, n - 1);
    }
  }

  /** The O(n) pass computes the longest weighted path: `max_done` is the weight
      of the heaviest dependency chain of the block, exactly when that weight fits
      the 32-bit counters. */
  lemma LongestChain(ops: seq<Op>)
    requires SmallSlots(ops) && |ops| > 0
    ensures IsLongest(ops, RunTo(ops, |ops|).maxDone) <==> Fits(ops)
  {
    hide Chain, Weight, RunTo, MaxFinish, IsLongest;
    MaxFinishLongest(ops);
    MaxDoneSmall(ops, |ops|);
    if Fits(ops) {
      RunTracks(ops, |ops|);
    } else if IsLongest(ops, RunTo(ops, |ops|).maxDone) {
      LongestUnique(ops, RunTo(ops, |ops|).maxDone, MaxFinish(ops, |ops|));
    }
  }

  lemma FinishAfter(ops: seq<Op>, i: nat, j: nat)
    requires i < |ops| && ops[i].src1 < 15 && LastWriter(ops, i, ops[i].src1) == Some(j)
    ensures Finish(ops, i) >= Finish(ops, j) + ops[i].cycles
  {
    hide DecodeState, LastWriter;
  }

  lemma WrittenBefore(ops: seq<Op>, i: nat, r: nat)
    requires 0 < i <= |ops| && ops[i - 1].dst == r
    ensures LastWriter(ops, i, r) == Some(i - 1)
  {
  }

  /** A chain of instructions through one register: each adds its latency. */
  lemma {:induction false} SerialFinish(ops: seq<Op>, op: Op, i: nat)
    requires i < |ops| && op.src1 == op.dst < 15 && forall k :: 0 <= k < |ops| ==> ops[k] == op
    ensures Finish(ops, i) >= op.cycles * (i + 1)
  {
    if i > 0 {
      hide Finish, LastWriter;
      SerialFinish(ops, op, i - 1);
      WrittenBefore(ops, i, op.dst);
      FinishAfter(ops, i, i - 1);
      assert op.cycles * (i + 1) == op.cycles * i + op.cycles;
    }
  }

  // ---- Slower instructions --------------------------------------------------

  /** The same block with no instruction faster. */
  predicate Slower(fast: seq<Op>, slow: seq<Op>) {
    && |fast| == |slow|
    && forall k :: 0 <= k < |fast| ==> fast[k].cycles <= slow[k].cycles && slow[k] == fast[k].(cycles := slow[k].cycles)
  }

  lemma {:induction false} SlowerDecode(fast: seq<Op>, slow: seq<Op>, n: nat)
    requires Slower(fast, slow) && n <= |fast|
    ensures DecodeState(fast, n) == DecodeState(slow, n)
  {
    if n > 0 {
      SlowerDecode(fast, slow, n - 1);
    }
  }

  lemma {:induction false} SlowerWriter(fast: seq<Op>, slow: seq<Op>, n: nat, r: nat)
    requires Slower(fast, slow) && n <= |fast|
    ensures LastWriter(fast, n, r) == LastWriter(slow, n, r)
  {
    if n > 0 {
      SlowerWriter(fast, slow, n - 1, r);
    }
  }

  lemma {:induction false} SlowerReady(fast: seq<Op>, slow: seq<Op>, n: nat, r: nat)
    requires Slower(fast, slow) && n <= |fast|
    ensures ReadyAt(fast, n, r) <= ReadyAt(slow, n, r)
    decreases n, 0
  {
    hide DecodeState;
    SlowerWriter(fast, slow, n, r);
    if r < 15 && LastWriter(fast, n, r).Some? {
      SlowerFinish(fast, slow, LastWriter(fast, n, r).value);
    }
  }

  lemma {:induction false} SlowerFinish(fast: seq<Op>, slow: seq<Op>, i: nat)
    requires Slower(fast, slow) && i < |fast|
    ensures Finish(fast, i) <= Finish(slow, i)
    decreases i, 1
  {
    hide ReadyAt, DecodeState;
    SlowerDecode(fast, slow, i + 1);
    SlowerReady(fast, slow, i, fast[i].src1);
    SlowerReady(fast, slow, i, fast[i].src2);
  }

  lemma {:induction false} SlowerMax(fast: seq<Op>, slow: seq<Op>, n: nat)
    requires Slower(fast, slow) && n <= |fast|
    ensures MaxFinish(fast, n) <= MaxFinish(slow, n)
  {
    hide Finish;
    if n > 0 {
      SlowerMax(fast, slow, n - 1);
      SlowerFinish(fast, slow, n - 1);
    }
  }

  /** Raising latencies never lowers a block's cost. */
  lemma SlowerCostsMore(fast: seq<Op>, slow: seq<Op>)
    requires Slower(fast, slow) && Fits(slow)
    ensures BlockCost(RunTo(fast, |fast|)) <= BlockCost(RunTo(slow, |slow|))
  {
    hide MaxFinish, DecodeState, RunTo;
    SlowerMax(fast, slow, |fast|);
    RunTracks(fast, |fast|);
    RunTracks(slow, |slow|);
  }

  // ---- Register masks -------------------------------------------------------

  /** Operands as bit sets over the sixteen mask positions. */
  datatype FastCost = FastCost(cycles: nat, slots: nat, src: bv16, dst: bv16, isMove: bool)

  function Bit(r: nat): bv16 {
    match r
    case 0 => 1
    case 1 => 2
    case 2 => 4
    case 3 => 8
    case 4 => 0x10
    case 5 => 0x20
    case 6 => 0x40
    case 7 => 0x80
    case 8 => 0x100
    case 9 => 0x200
    case 10 => 0x400
    case 11 => 0x800
    case 12 => 0x1000
    case 13 => 0x2000
    case 14 => 0x4000
    case 15 => 0x8000
    case _ => 0
  }

  predicate Has(m: bv16, r: nat) {
    m & Bit(r) != 0
  }

  /** Index of the lowest set bit at or above `r`, 16 if there is none. */
  function TrailingZeros(m: bv16, r: nat := 0): (t: nat)
    requires r <= 16
    ensures r <= t <= 16 && (t < 16 ==> Has(m, t)) && forall k :: r <= k < t ==> !Has(m, k)
    decreases 16 - r
  {
    if r == 16 || Has(m, r) then r else TrailingZeros(m, r + 1)
  }

  lemma BitPower(r: nat)
    requires r < 16
    ensures Bit(r) != 0 && Bit(r) & (Bit(r) - 1) == 0
    ensures r < 15 ==> Bit(r + 1) == Bit(r) * 2
    ensures r == 15 ==> Bit(r) * 2 == 0
  {
  }

  lemma FirstBit()
    ensures Bit(0) == 1
  {
  }

  lemma WidenBelow(m: bv16, b: bv16)
    requires m & (b - 1) == 0 && m & b == 0 && b & (b - 1) == 0
    ensures m & (b * 2 - 1) == 0
  {
  }

  lemma {:induction false} BelowLowest(m: bv16, r: nat)
    requires r < 16 && forall k :: 0 <= k < r ==> !Has(m, k)
    ensures m & (Bit(r) - 1) == 0
  {
    hide Bit;
    FirstBit();
    if r > 0 {
      assert !Has(m, r - 1);
      BelowLowest(m, r - 1);
      BitPower(r - 1);
      WidenBelow(m, Bit(r - 1));
    }
  }

  lemma DropBit(m: bv16, b: bv16)
    requires b & (b - 1) == 0 && m & (b - 1) == 0 && m & b != 0
    ensures m & (m - 1) == m & !b
  {
  }

  lemma DistinctBits(r: nat, t: nat)
    requires r < 16 && t < 16 && r != t
    ensures Bit(r) & Bit(t) == 0
  {
  }

  lemma KeepBit(m: bv16, b: bv16, c: bv16)
    ensures b & c == 0 ==> (m & !b) & c == m & c
    ensures (m & !b) & b == 0
  {
  }

  lemma TopBit(m: bv16)
    requires m & (Bit(15) - 1) == 0 && m != 0
    ensures Has(m, 15)
  {
  }

  lemma SomeBit(m: bv16)
    requires m != 0
    ensures TrailingZeros(m) < 16
  {
    if TrailingZeros(m) == 16 {
      hide TrailingZeros;
      BelowLowest(m, 15);
      TopBit(m);
      assert false;
    }
  }

  lemma ClearAt(m: bv16, t: nat, r: nat)
    requires t < 16 && r < 16
    ensures Has(m & !Bit(t), r) <==> Has(m, r) && r != t
  {
    hide Bit;
    KeepBit(m, Bit(t), Bit(r));
    if r != t {
      DistinctBits(t, r);
    }
  }

  /** The step `src &= src - 1` removes exactly the lowest set bit. */
  lemma ClearLowest(m: bv16)
    requires m != 0
    ensures TrailingZeros(m) < 16
    ensures forall r :: 0 <= r < 16 ==> (Has(m & (m - 1), r) <==> Has(m, r) && r != TrailingZeros(m))
  {
    hide Bit;
    var t := TrailingZeros(m);
    SomeBit(m);
    BelowLowest(m, t);
    BitPower(t);
    DropBit(m, Bit(t));
    hide Has;
    forall r | 0 <= r < 16 ensures Has(m & (m - 1), r) <==> Has(m, r) && r != t {
      ClearAt(m, t, r);
    }
  }

  /** `m` holds the bits of `mask` from `low` up. */
  predicate Rest(m: bv16, mask: bv16, low: nat) {
    forall r :: 0 <= r < 16 ==> (Has(m, r) <==> r >= low && Has(mask, r))
  }

  lemma RestAll(mask: bv16)
    ensures Rest(mask, mask, 0)
  {
    hide Has;
  }

  lemma RestStep(m: bv16, mask: bv16, low: nat)
    requires m != 0 && Rest(m, mask, low)
    ensures
      var t := TrailingZeros(m);
      low <= t < 16 && Has(mask, t) && (forall k :: low <= k < t ==> !Has(mask, k)) && Rest(m & (m - 1), mask, t + 1)
  {
    hide Has;
    ClearLowest(m);
  }

  lemma NoBits()
    ensures forall r :: 0 <= r < 16 ==> !Has(0, r)
  {
    forall r | 0 <= r < 16 ensures !Has(0, r) {
      BitPower(r);
    }
  }

  lemma RestNone(mask: bv16, low: nat)
    requires Rest(0, mask, low)
    ensures forall k :: low <= k < 16 ==> !Has(mask, k)
  {
    NoBits();
    hide Has;
  }

  /** Latest completion among the first `n` registers that are in the mask. */
  function SrcReady(regDone: seq<nat>, m: bv16, n: nat): nat
    requires n <= |regDone|
  {
    if n == 0 then 0
    else if Has(m, n - 1) then Max(SrcReady(regDone, m, n - 1), regDone[n - 1])
    else SrcReady(regDone, m, n - 1)
  }

  /** Every register below `n` in the mask set to `done`. */
  function SetAll(regDone: seq<nat>, m: bv16, done: nat, n: nat): (s: seq<nat>)
    ensures |s| == |regDone|
  {
    seq(|regDone|, r requires 0 <= r < |regDone| => if r < n && Has(m, r) then done else regDone[r])
  }

  /** `feed`. */
  function FedMask(s: Sim, c: FastCost): (r: Sim)
    requires Valid(s)
    ensures Valid(r)
  {
    var d := Decode(s, c.slots);
    if c.isMove then
      var src, dst := TrailingZeros(c.src), TrailingZeros(c.dst);
      if src < 15 && dst < 15 then d.(regDone := d.regDone[dst := d.regDone[src]]) else d
    else
      var done := Add32(Max(d.cycle, SrcReady(d.regDone, c.src, 15)), c.cycles);
      d.(regDone := SetAll(d.regDone, c.dst, done, 15), maxDone := Max(d.maxDone, done))
  }

  predicate Names(m: bv16, a: nat, b: nat) {
    forall r :: 0 <= r < 15 ==> (Has(m, r) <==> r == a || r == b)
  }

  lemma {:induction false} SrcReadyNames(regDone: seq<nat>, m: bv16, a: nat, b: nat, n: nat)
    requires Names(m, a, b) && n <= 15 == |regDone|
    ensures SrcReady(regDone, m, n) == Max(if a < n then regDone[a] else 0, if b < n then regDone[b] else 0)
  {
    hide Has;
    if n > 0 {
      SrcReadyNames(regDone, m, a, b, n - 1);
    }
  }

  /** The mask-driven and the index-driven feed agree on matching operands. */
  lemma FeedsAgree(s: Sim, c: FastCost, op: Op)
    requires Valid(s) && !c.isMove && c.cycles == op.cycles && c.slots == op.slots
    requires Names(c.src, op.src1, op.src2) && Names(c.dst, op.dst, op.dst)
    ensures FedMask(s, c) == FedDirect(s, op)
  {
    hide Has;
    var d := Decode(s, c.slots);
    SrcReadyNames(d.regDone, c.src, op.src1, op.src2, 15);
    assert FedMask(s, c).regDone == FedDirect(s, op).regDone;
  }

  // ---- The simulator in place -----------------------------------------------

  /** Registers outside the mask do not move the latest completion. */
  lemma {:induction false} SkipReady(regDone: seq<nat>, m: bv16, lo: nat, hi: nat)
    requires lo <= hi <= |regDone| && forall r :: lo <= r < hi ==> !Has(m, r)
    ensures SrcReady(regDone, m, lo) == SrcReady(regDone, m, hi)
    decreases hi
  {
    hide Has;
    if lo < hi {
      SkipReady(regDone, m, lo, hi - 1);
    }
  }

  class GasSimulator {
    const regDone: array<nat>
    var cycle: nat
    var decodeUsed: nat
    var maxDone: nat

    ghost predicate Ok()
      reads this
    {
      regDone.Length == 15
    }

    ghost function View(): (s: Sim)
      requires Ok()
      reads this, regDone
      ensures Valid(s)
    {
      Sim(regDone[..], cycle, decodeUsed, maxDone)
    }

    constructor ()
      ensures Ok() && View() == New() && fresh(regDone)
    {
      regDone := new nat[15](_ => 0);
      cycle, decodeUsed, maxDone := 0, 0, 0;
      new;
      assert regDone[..] == New().regDone;
    }

    method DecodeSlots(slots: nat)
      requires Ok()
      modifies this
      ensures View() == Decode(old(View()), slots)
    {
      if decodeUsed >= 4 {
        cycle := Add32(cycle, 1);
        decodeUsed := slots;
      } else {
        decodeUsed := Add8(decodeUsed, slots);
      }
    }

    method FeedDirect(op: Op)
      requires Ok()
      modifies this, regDone
      ensures View() == FedDirect(old(View()), op)
    {
      DecodeSlots(op.slots);
      var start := cycle;
      if op.src1 < 15 {
        start := Max(start, regDone[op.src1]);
      }
      if op.src2 < 15 {
        start := Max(start, regDone[op.src2]);
      }
      var done := Add32(start, op.cycles);
      if op.dst < 15 {
        regDone[op.dst] := done;
      }
      maxDone := Max(maxDone, done);
    }

    /** The latest completion over a source mask, bit by bit. */
    method Start(mask: bv16) returns (start: nat)
      requires Ok()
      ensures start == Max(cycle, SrcReady(regDone[..], mask, 15))
    {
      hide Has, Rest, TrailingZeros;
      RestAll(mask);
      start := cycle;
      var src := mask;
      ghost var low, done := 0, regDone[..];
      while src != 0
        invariant 0 <= low <= 16
        invariant Rest(src, mask, low)
        invariant start == Max(cycle, SrcReady(regDone[..], mask, Min(low, 15)))
        decreases 16 - low
      {
        var r := TrailingZeros(src);
        RestStep(src, mask, low);
        SkipReady(done, mask, Min(low, 15), Min(r, 15));
        src := src & (src - 1);
        if r < 15 {
          start := Max(start, regDone[r]);
        }
        low := r + 1;
      }
      RestNone(mask, low);
      SkipReady(done, mask, Min(low, 15), 15);
    }

    /** Sets every destination register of a mask, bit by bit. */
    method WriteBack(mask: bv16, done: nat)
      requires Ok()
      modifies regDone
      ensures regDone[..] == SetAll(old(regDone[..]), mask, done, 15)
    {
      hide Has, Rest, TrailingZeros;
      RestAll(mask);
      var dst := mask;
      ghost var low := 0;
      while dst != 0
        invariant 0 <= low <= 16
        invariant Rest(dst, mask, low)
        invariant regDone[..] == SetAll(old(regDone[..]), mask, done, low)
        decreases 16 - low
      {
        var r := TrailingZeros(dst);
        RestStep(dst, mask, low);
        dst := dst & (dst - 1);
        if r < 15 {
          regDone[r] := done;
        }
        low := r + 1;
      }
      RestNone(mask, low);
    }

    method Feed(c: FastCost)
      requires Ok()
      modifies this, regDone
      ensures View() == FedMask(old(View()), c)
    {
      hide Has;
      DecodeSlots(c.slots);
      if c.isMove {
        var src, dst := TrailingZeros(c.src), TrailingZeros(c.dst);
        if src < 15 && dst < 15 {
          regDone[dst] := regDone[src];
        }
        return;
      }
      var start := Start(c.src);
      var done := Add32(start, c.cycles);
      WriteBack(c.dst, done);
      maxDone := Max(maxDone, done);
    }

    method FlushAndGetCost() returns (cost: nat)
      requires Ok()
      ensures cost == BlockCost(View())
    {
      if maxDone > 3 {
        cost := maxDone - 3;
      } else {
        cost := 1;
      }
    }

    method Reset()
      requires Ok()
      modifies this, regDone
      ensures View() == New()
    {
      forall r | 0 <= r < 15 {
        regDone[r] := 0;
      }
      cycle, decodeUsed, maxDone := 0, 0, 0;
      assert regDone[..] == New().regDone;
    }
  }
}
