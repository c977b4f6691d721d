/** Decoding a code section into gas blocks (nub-exec `predecode.rs`). */
module Predecode {
  import opened Prelude
  import opened Isa
  import opened GasCost
  import GasSim

  datatype Entry = Entry(inst: Inst, pc: nat, next: nat, start: bool)

  datatype Predecoded = Predecoded(insts: seq<Entry>, costs: seq<nat>, reserves: seq<nat>, errorAt: Option<nat>)

  /** Pass 1: every instruction from `pc` on. */
  function Sweep(code: seq<byte>, pc: nat, plain: PlainDecoder): (r: seq<Entry>)
    requires pc <= |code|
    ensures forall k :: 0 <= k < |r| ==> pc <= r[k].pc < r[k].next <= |code| && !r[k].start
    decreases |code| - pc
  {
    match Decode(code, pc, plain)
    case None => []
    case Some(d) => [Entry(d.inst, pc, pc + d.len, false)] + Sweep(code, pc + d.len, plain)
  }

  /** The recorded decode error: the first reserved encoding, unless the sweep
      later stops at a truncated instruction, whose offset replaces it. */
  function ErrorAt(code: seq<byte>, pc: nat, plain: PlainDecoder, seen: Option<nat>): Option<nat>
    requires pc <= |code|
    decreases |code| - pc
  {
    if pc == |code| then seen
    else
      match Decode(code, pc, plain)
      case None => Some(pc)
      case Some(d) => ErrorAt(code, pc + d.len, plain, if d.inst.Reserved? && seen.None? then Some(pc) else seen)
  }

  /** Pass 2: the first instruction, whatever follows a terminator, and every
      ecall start a gas block. */
  predicate StartAt(insts: seq<Entry>, i: nat)
    requires i < |insts|
  {
    i == 0 || IsTerminator(insts[i - 1].inst) || IsEcall(insts[i].inst)
  }

  function Mark(insts: seq<Entry>): (r: seq<Entry>)
    ensures |r| == |insts|
    ensures forall i :: 0 <= i < |r| ==> r[i] == insts[i].(start := StartAt(insts, i))
  {
    seq(|insts|, i requires 0 <= i < |insts| => insts[i].(start := StartAt(insts, i)))
  }

  /** One past the block containing `i`. */
  function BlockEnd(insts: seq<Entry>, i: nat): (end: nat)
    requires i < |insts|
    ensures i < end <= |insts|
    ensures forall k :: i < k < end ==> !insts[k].start
    ensures end < |insts| ==> insts[end].start
    decreases |insts| - i
  {
    if i + 1 == |insts| || insts[i + 1].start then i + 1 else BlockEnd(insts, i + 1)
  }

  function InstsOf(entries: seq<Entry>): (r: seq<Inst>)
    ensures |r| == |entries| && forall k :: 0 <= k < |r| ==> r[k] == entries[k].inst
  {
    seq(|entries|, k requires 0 <= k < |entries| => entries[k].inst)
  }

  /** Worst-case first-write gas of the rest of the block from `i` on. */
  function RestReserve(insts: seq<Entry>, i: nat): nat
    requires i < |insts|
    decreases |insts| - i
  {
    ReserveOf(insts[i].inst) + if i + 1 == |insts| || insts[i + 1].start then 0 else RestReserve(insts, i + 1)
  }

  /** Blocks that pass the static gate; an ecall block is charged at dispatch. */
  predicate Gated(insts: seq<Entry>, i: nat)
    requires i < |insts|
  {
    insts[i].start && !IsEcall(insts[i].inst)
  }

  function CostAt(insts: seq<Entry>, i: nat, memCycles: nat): nat
    requires i < |insts|
  {
    if Gated(insts, i) then CostOf(InstsOf(insts[i..BlockEnd(insts, i)]), memCycles) else 0
  }

  function ReserveAt(insts: seq<Entry>, i: nat): nat
    requires i < |insts|
  {
    if Gated(insts, i) then Min(RestReserve(insts, i), 0xFFFF_FFFF) else 0
  }

  function Costs(insts: seq<Entry>, memCycles: nat): (r: seq<nat>)
    ensures |r| == |insts| && forall i :: 0 <= i < |r| ==> r[i] == CostAt(insts, i, memCycles)
  {
    seq(|insts|, i requires 0 <= i < |insts| => CostAt(insts, i, memCycles))
  }

  function Reserves(insts: seq<Entry>): (r: seq<nat>)
    ensures |r| == |insts| && forall i :: 0 <= i < |r| ==> r[i] == ReserveAt(insts, i)
  {
    seq(|insts|, i requires 0 <= i < |insts| => ReserveAt(insts, i))
  }

  function PredecodeOf(code: seq<byte>, memCycles: nat, plain: PlainDecoder): Predecoded {
    var insts := Mark(Sweep(code, 0, plain));
    Predecoded(insts, Costs(insts, memCycles), Reserves(insts), ErrorAt(code, 0, plain, None))
  }

  // ---- What the interpreter relies on ---------------------------------------

  /** Instructions are laid out back to back. */
  predicate Contiguous(insts: seq<Entry>) {
    && (forall i :: 0 <= i < |insts| ==> insts[i].pc < insts[i].next)
    && (forall i :: 0 <= i && i + 1 < |insts| ==> insts[i].next == insts[i + 1].pc)
  }

  predicate Priced(p: Predecoded) {
    && |p.costs| == |p.insts| == |p.reserves|
    && Contiguous(p.insts)
    && (forall i :: 0 <= i < |p.insts| ==> p.insts[i].next < 0x1_0000_0000)
    && (forall i :: 0 <= i < |p.insts| ==> (p.insts[i].start <==> StartAt(p.insts, i)))
    && (forall i :: 0 <= i < |p.insts| ==> (p.costs[i] >= 1 <==> Gated(p.insts, i)))
    && (forall i :: 0 <= i < |p.insts| ==> p.reserves[i] == ReserveAt(p.insts, i))
  }

  lemma {:induction false} SweepContiguous(code: seq<byte>, pc: nat, plain: PlainDecoder)
    requires pc <= |code|
    ensures Contiguous(Sweep(code, pc, plain))
    ensures Sweep(code, pc, plain) != [] ==> Sweep(code, pc, plain)[0].pc == pc
    decreases |code| - pc
  {
    hide Decode;
    var d := Decode(code, pc, plain);
    if d.Some? {
      SweepContiguous(code, pc + d.value.len, plain);
    }
  }

  lemma {:induction false} PcsIncrease(insts: seq<Entry>, i: nat, j: nat)
    requires Contiguous(insts) && i < j < |insts|
    ensures insts[i].next <= insts[j].pc
    decreases j
  {
    if i + 1 < j {
      PcsIncrease(insts, i, j - 1);
    }
  }

  /** Marking moves nothing and marks what it says. */
  lemma MarkKeeps(raw: seq<Entry>)
    requires Contiguous(raw)
    ensures Contiguous(Mark(raw))
    ensures forall i :: 0 <= i < |raw| ==> (Mark(raw)[i].start <==> StartAt(Mark(raw), i))
  {
    hide IsTerminator, IsEcall;
  }

  lemma CostsGated(insts: seq<Entry>, memCycles: nat)
    ensures forall i :: 0 <= i < |insts| ==> (Costs(insts, memCycles)[i] >= 1 <==> Gated(insts, i))
  {
    hide Gated, BlockEnd, InstsOf;
    forall i | 0 <= i < |insts| ensures CostAt(insts, i, memCycles) >= 1 <==> Gated(insts, i) {
    }
  }

  /** Predecode output is priced block by block, with every non-ecall block
      costing at least one. */
  lemma PredecodePriced(code: seq<byte>, memCycles: nat, plain: PlainDecoder)
    requires |code| < 0x1_0000_0000
    ensures Priced(PredecodeOf(code, memCycles, plain))
  {
    hide Sweep, ErrorAt, CostAt, ReserveAt, Gated, StartAt, Contiguous;
    var raw := Sweep(code, 0, plain);
    SweepContiguous(code, 0, plain);
    MarkKeeps(raw);
    CostsGated(Mark(raw), memCycles);
  }

  /** Any stretch from one block start up to the next is priced as a whole at its
      first instruction, an ecall at nothing, and nothing else is priced. */
  lemma BlockPrices(code: seq<byte>, memCycles: nat, plain: PlainDecoder, i: nat, end: nat)
    requires
      var insts := PredecodeOf(code, memCycles, plain).insts;
      && i < end <= |insts| && insts[i].start && (forall k :: i < k < end ==> !insts[k].start)
      && (end < |insts| ==> insts[end].start)
    ensures
      var p := PredecodeOf(code, memCycles, plain);
      && (!IsEcall(p.insts[i].inst) ==> p.costs[i] == CostOf(InstsOf(p.insts[i..end]), memCycles))
      && (IsEcall(p.insts[i].inst) ==> p.costs[i] == p.reserves[i] == 0)
      && forall k :: i < k < end ==> p.costs[k] == p.reserves[k] == 0
  {
    hide Sweep, ErrorAt, CostOf, RestReserve, StartAt;
    var insts := PredecodeOf(code, memCycles, plain).insts;
    assert BlockEnd(insts, i) == end;
  }

  // ---- What the recorded error is -------------------------------------------

  /** Offset of the first reserved encoding among the entries. */
  function FirstReserved(entries: seq<Entry>): Option<nat> {
    if entries == [] then None
    else if entries[0].inst.Reserved? then Some(entries[0].pc)
    else FirstReserved(entries[1..])
  }

  /** Its position: entry `k`, or past the end if there is none. */
  lemma {:induction false} FirstReservedAt(entries: seq<Entry>) returns (k: nat)
    ensures k <= |entries| && forall j :: 0 <= j < k ==> !entries[j].inst.Reserved?
    ensures FirstReserved(entries) == if k < |entries| then Some(entries[k].pc) else None
    ensures k < |entries| ==> entries[k].inst.Reserved?
  {
    if entries == [] || entries[0].inst.Reserved? {
      k := 0;
    } else {
      k := FirstReservedAt(entries[1..]);
      k := k + 1;
    }
  }

  /** Where a sweep from `pc` that saw these entries stopped. */
  function Stop(entries: seq<Entry>, pc: nat): nat {
    if entries == [] then pc else entries[|entries| - 1].next
  }

  /** The documented error: the first encoding that does not decode, a truncated
      tail being the last candidate. */
  function FirstBad(code: seq<byte>, plain: PlainDecoder): Option<nat> {
    var entries := Sweep(code, 0, plain);
    if FirstReserved(entries).Some? then FirstReserved(entries)
    else if Stop(entries, 0) < |code| then Some(Stop(entries, 0))
    else None
  }

  /** The recorded error is the offset of the truncated tail if there is one, and
      the first reserved encoding otherwise. */
  lemma {:induction false} ErrorAtExact(code: seq<byte>, pc: nat, plain: PlainDecoder, seen: Option<nat>)
    requires pc <= |code|
    ensures
      var entries := Sweep(code, pc, plain);
      ErrorAt(code, pc, plain, seen) ==
        if Stop(entries, pc) < |code| then Some(Stop(entries, pc))
        else if seen.Some? then seen
        else FirstReserved(entries)
    decreases |code| - pc
  {
    hide Decode;
    var d := Decode(code, pc, plain);
    if d.Some? {
      var next := pc + d.value.len;
      ErrorAtExact(code, next, plain, if d.value.inst.Reserved? && seen.None? then Some(pc) else seen);
      var rest := Sweep(code, next, plain);
      var entries := Sweep(code, pc, plain);
      assert entries[1..] == rest;
      assert Stop(entries, pc) == Stop(rest, next);
    }
  }

  lemma BeforeStop(entries: seq<Entry>, k: nat)
    requires Contiguous(entries) && k < |entries|
    ensures entries[k].pc < Stop(entries, 0)
  {
    if k + 1 < |entries| {
      PcsIncrease(entries, k, |entries| - 1);
    }
  }

  /** The recorded error is the first one exactly when the code does not both
      hold a reserved encoding and end in a truncated instruction. */
  lemma ErrorIsFirst(code: seq<byte>, plain: PlainDecoder)
    ensures
      var entries := Sweep(code, 0, plain);
      ErrorAt(code, 0, plain, None) == FirstBad(code, plain)
      <==> !(Stop(entries, 0) < |code| && exists k :: 0 <= k < |entries| && entries[k].inst.Reserved?)
  {
    hide Sweep, ErrorAt, Decode, FirstReserved;
    ErrorAtExact(code, 0, plain, None);
    SweepContiguous(code, 0, plain);
    var entries := Sweep(code, 0, plain);
    var k := FirstReservedAt(entries);
    if k < |entries| {
      BeforeStop(entries, k);
    }
  }

  /** Where it is not: the all-zero instruction and then one stray byte. */
  lemma ErrorIsLast(plain: PlainDecoder)
    ensures ErrorAt([0, 0, 1], 0, plain, None) == Some(2) && FirstBad([0, 0, 1], plain) == Some(0)
  {
    var code: seq<byte> := [0, 0, 1];
    assert HalfAt(code, 0) == 0;
    assert Decode(code, 0, plain) == Some(Decoded(Reserved, 2));
    assert Decode(code, 2, plain) == None;
    assert Sweep(code, 2, plain) == [];
    assert Sweep(code, 0, plain) == [Entry(Reserved, 0, 2, false)];
    ErrorAtExact(code, 0, plain, None);
  }

  // ---- When a block reserve saturates ---------------------------------------

  /** Stores among the instructions from `i` up to `end`. */
  function Stores(insts: seq<Entry>, i: nat, end: nat): nat
    requires i <= end <= |insts|
    decreases end - i
  {
    if i == end then 0 else (if insts[i].inst.Store? then 1 else 0) + Stores(insts, i + 1, end)
  }

  lemma {:induction false} ReserveCountsStores(insts: seq<Entry>, i: nat)
    requires i < |insts|
    ensures RestReserve(insts, i) == 512 * Stores(insts, i, BlockEnd(insts, i))
    decreases |insts| - i
  {
    hide ReserveOf;
    if i + 1 < |insts| && !insts[i + 1].start {
      ReserveCountsStores(insts, i + 1);
    }
  }

  /** The 32-bit cap of a reserve binds exactly on blocks of at least 2^23 stores. */
  lemma ReserveSaturates(insts: seq<Entry>, i: nat)
    requires i < |insts| && Gated(insts, i)
    ensures ReserveAt(insts, i) != RestReserve(insts, i) <==> Stores(insts, i, BlockEnd(insts, i)) >= 0x80_0000
  {
    hide RestReserve, Stores;
    ReserveCountsStores(insts, i);
  }

  /** `n` copies of `c.sw x8, 0(x8)`. */
  function StoreBytes(n: nat): (code: seq<byte>)
    ensures |code| == 2 * n
    ensures forall k :: 0 <= k < n ==> code[2 * k] == 0 && code[2 * k + 1] == 0xC0
  {
    if n == 0 then [] else StoreBytes(n - 1) + [0, 0xC0]
  }

  lemma DecodeStore(code: seq<byte>, pc: nat, plain: PlainDecoder)
    requires pc + 2 <= |code| && code[pc] == 0 && code[pc + 1] == 0xC0
    ensures Decode(code, pc, plain) == Some(Decoded(plain(0xC000), 2))
  {
    assert HalfAt(code, pc) == 0xC000;
  }

  lemma {:induction false} SweepStores(n: nat, k: nat, plain: PlainDecoder)
    requires k <= n && plain(0xC000).Store?
    ensures
      var entries := Sweep(StoreBytes(n), 2 * k, plain);
      |entries| == n - k && forall j :: 0 <= j < |entries| ==> entries[j].inst.Store?
    decreases n - k
  {
    hide Decode;
    if k < n {
      SweepStores(n, k + 1, plain);
      DecodeStore(StoreBytes(n), 2 * k, plain);
    }
  }

  lemma {:induction false} AllStores(insts: seq<Entry>, i: nat)
    requires i < |insts|
    requires forall k :: 0 <= k < |insts| ==> insts[k].inst.Store? && (insts[k].start <==> k == 0)
    ensures RestReserve(insts, i) == 512 * (|insts| - i)
    decreases |insts| - i
  {
    if i + 1 < |insts| {
      AllStores(insts, i + 1);
    }
  }

  lemma StoresOneBlock(raw: seq<Entry>)
    requires raw != [] && forall k :: 0 <= k < |raw| ==> raw[k].inst.Store?
    ensures
      var insts := Mark(raw);
      && Gated(insts, 0)
      && forall k :: 0 <= k < |insts| ==> insts[k].inst.Store? && (insts[k].start <==> k == 0)
  {
  }

  /** And it does bind: 2^23 or more compressed stores, which is 16 MiB of code
      and up, are one block whose exact reserve does not fit. */
  lemma ReserveBinds(n: nat, plain: PlainDecoder, memCycles: nat)
    requires 0x80_0000 <= n && 2 * n <= MAX_CODE_SIZE && plain(0xC000).Store?
    ensures
      var p := PredecodeOf(StoreBytes(n), memCycles, plain);
      |p.insts| == n && p.reserves[0] == 0xFFFF_FFFF < RestReserve(p.insts, 0) == 512 * n
  {
    hide Sweep, RestReserve, CostAt, Decode, StoreBytes, ErrorAt, StartAt, Gated;
    SweepStores(n, 0, plain);
    var raw := Sweep(StoreBytes(n), 0, plain);
    StoresOneBlock(raw);
    AllStores(Mark(raw), 0);
  }

  // ---- In place -------------------------------------------------------------

  method FindBlockEnd(insts: seq<Entry>, i: nat) returns (end: nat)
    requires i < |insts|
    ensures end == BlockEnd(insts, i)
  {
    end := i + 1;
    while end < |insts| && !insts[end].start
      invariant i < end <= |insts|
      invariant BlockEnd(insts, i) == BlockEnd(insts, end - 1)
    {
      end := end + 1;
    }
  }

  /** `rv_gas_cost_for_block`. */
  method CostForBlock(insts: seq<Entry>, i: nat, memCycles: nat) returns (cost: nat)
    requires i < |insts|
    ensures cost == CostOf(InstsOf(insts[i..BlockEnd(insts, i)]), memCycles)
  {
    hide OpOf, MetaOf, GasSim.FedDirect;
    var end := FindBlockEnd(insts, i);
    ghost var ops := OpsOf(InstsOf(insts[i..end]), memCycles);
    var sim := new GasSim.GasSimulator();
    var k := i;
    while k < end
      invariant i <= k <= end
      invariant sim.Ok() && fresh(sim) && fresh(sim.regDone)
      invariant sim.View() == GasSim.RunTo(ops, k - i)
    {
      sim.FeedDirect(OpOf(MetaOf(insts[k].inst), memCycles));
      k := k + 1;
    }
    cost := sim.FlushAndGetCost();
  }

  /** `rv_block_reserve_for_block`, with its two saturating additions. */
  method ReserveForBlock(insts: seq<Entry>, i: nat) returns (reserve: nat)
    requires i < |insts|
    ensures reserve == Min(RestReserve(insts, i), 0xFFFF_FFFF)
  {
    var end := FindBlockEnd(insts, i);
    var sum := 0;
    var k := i;
    ghost var done := 0;
    while k < end
      invariant i <= k <= end && sum == Min(done, 0xFFFF_FFFF_FFFF_FFFF)
      invariant done + (if k < end then RestReserve(insts, k) else 0) == RestReserve(insts, i)
    {
      done := done + ReserveOf(insts[k].inst);
      sum := Min(sum + ReserveOf(insts[k].inst), 0xFFFF_FFFF_FFFF_FFFF);
      k := k + 1;
    }
    reserve := Min(sum, 0xFFFF_FFFF);
  }

  method ComputeBlockCosts(insts: seq<Entry>, memCycles: nat) returns (costs: seq<nat>, reserves: seq<nat>)
    ensures costs == Costs(insts, memCycles) && reserves == Reserves(insts)
  {
    hide CostOf, RestReserve;
    costs, reserves := [], [];
    for i := 0 to |insts|
      invariant |costs| == i && costs == Costs(insts, memCycles)[..i]
      invariant |reserves| == i && reserves == Reserves(insts)[..i]
    {
      var cost, reserve := 0, 0;
      if insts[i].start && !IsEcall(insts[i].inst) {
        cost := CostForBlock(insts, i, memCycles);
        reserve := ReserveForBlock(insts, i);
      }
      costs, reserves := costs + [cost], reserves + [reserve];
    }
  }

  /** One turn of the decode loop. */
  lemma DecodeStep(code: seq<byte>, pc: nat, plain: PlainDecoder, seen: Option<nat>)
    requires pc <= |code|
    ensures pc == |code| ==> Sweep(code, pc, plain) == [] && ErrorAt(code, pc, plain, seen) == seen
    ensures
      var d := Decode(code, pc, plain);
      && (d.None? ==> Sweep(code, pc, plain) == [])
      && (d.None? && pc < |code| ==> ErrorAt(code, pc, plain, seen) == Some(pc))
      && (d.Some? ==>
            var next := pc + d.value.len;
            && Sweep(code, pc, plain) == [Entry(d.value.inst, pc, next, false)] + Sweep(code, next, plain)
            && ErrorAt(code, pc, plain, seen)
               == ErrorAt(code, next, plain, if d.value.inst.Reserved? && seen.None? then Some(pc) else seen))
  {
  }

  method DecodeAll(code: seq<byte>, plain: PlainDecoder) returns (insts: seq<Entry>, errorAt: Option<nat>)
    ensures insts == Sweep(code, 0, plain) && errorAt == ErrorAt(code, 0, plain, None)
  {
    hide Decode, Sweep, ErrorAt;
    insts, errorAt := [], None;
    var pc := 0;
    while pc < |code|
      invariant 0 <= pc <= |code|
      invariant insts + Sweep(code, pc, plain) == Sweep(code, 0, plain)
      invariant ErrorAt(code, 0, plain, None) == ErrorAt(code, pc, plain, errorAt)
      decreases |code| - pc
    {
      DecodeStep(code, pc, plain, errorAt);
      var d := Decode(code, pc, plain);
      if d.None? {
        errorAt := Some(pc);
        return;
      }
      if d.value.inst.Reserved? && errorAt.None? {
        errorAt := Some(pc);
      }
      insts := insts + [Entry(d.value.inst, pc, pc + d.value.len, false)];
      pc := pc + d.value.len;
    }
    DecodeStep(code, pc, plain, errorAt);
  }

  /** The first `n` entries marked, and the first entry of all. */
  function MarkedTo(raw: seq<Entry>, n: nat): (r: seq<Entry>)
    ensures |r| == |raw|
    ensures forall k :: 0 <= k < |raw| ==> r[k] == raw[k].(start := if k < n then StartAt(raw, k) else k == 0 || raw[k].start)
  {
    seq(|raw|, k requires 0 <= k < |raw| => raw[k].(start := if k < n then StartAt(raw, k) else k == 0 || raw[k].start))
  }

  lemma MarkStep(raw: seq<Entry>, i: nat)
    requires i < |raw| && forall k :: 0 <= k < |raw| ==> !raw[k].start
    ensures
      var e := MarkedTo(raw, i)[i];
      MarkedTo(raw, i + 1) == MarkedTo(raw, i)[i := e.(start :=
        e.start || (i > 0 && IsTerminator(raw[i - 1].inst)) || IsEcall(raw[i].inst))]
  {
    hide IsTerminator, IsEcall;
  }

  method MarkStarts(raw: seq<Entry>) returns (insts: seq<Entry>)
    requires forall k :: 0 <= k < |raw| ==> !raw[k].start
    ensures insts == Mark(raw)
  {
    insts := raw;
    if |insts| > 0 {
      insts := insts[0 := insts[0].(start := true)];
    }
    assert insts == MarkedTo(raw, 0);
    assert Mark(raw) == MarkedTo(raw, |raw|);
    hide IsTerminator, IsEcall, StartAt;
    for i := 0 to |raw|
      invariant insts == MarkedTo(raw, i)
    {
      MarkStep(raw, i);
      if i > 0 && IsTerminator(insts[i - 1].inst) {
        insts := insts[i := insts[i].(start := true)];
      }
      if IsEcall(insts[i].inst) {
        insts := insts[i := insts[i].(start := true)];
      }
    }
  }

  /** `predecode_rv_with_mem_cycles`. */
  method PredecodeCode(code: seq<byte>, memCycles: nat, plain: PlainDecoder) returns (p: Predecoded)
    requires |code| < 0x1_0000_0000
    ensures p == PredecodeOf(code, memCycles, plain) && Priced(p)
    ensures
      var raw := Sweep(code, 0, plain);
      p.errorAt == if Stop(raw, 0) < |code| then Some(Stop(raw, 0)) else FirstReserved(raw)
  {
    hide Sweep, FirstReserved, Priced, Mark, Costs, Reserves, ErrorAt, Stop;
    ErrorAtExact(code, 0, plain, None);
    var insts, errorAt := DecodeAll(code, plain);
    insts := MarkStarts(insts);
    var costs, reserves := ComputeBlockCosts(insts, memCycles);
    p := Predecoded(insts, costs, reserves, errorAt);
    PredecodePriced(code, memCycles, plain);
  }
}
