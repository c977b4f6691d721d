/** Access, fault and retry through the demand-built mapping of `PagedMemory`
    (nub-arch-x86 `jit_run.rs`) is indistinguishable from the interpreter's flat
    memory with first-touch accounting (nub-exec `mem.rs`). */
module DemandPaging {
  import opened Prelude
  import opened Mat
  import opened FlatMemory
  import opened PagedMemory

  // ---- Agreement with the flat memory -----------------------------------

  /** The flat memory covers the same regions with the same permissions. */
  ghost predicate SameShape(l: Layout, m: Mem) {
    && Valid(m)
    && m.base == 4096 * l.dataStart
    && |m.perms| == |l.backing|
    && m.codeBase == 4096 * l.codeStart && m.codeTop == 4096 * l.codeEnd
    && (forall i :: 0 <= i < |m.perms| ==>
          m.perms[i] == if Pinned(l, l.dataStart + i) then ReadOnly else ReadWrite)
  }

  /** Both sides have charged the same pages. Whether an uncharged page was read
      before may differ: a reused page table serves reads without a fault. */
  ghost predicate SamePaid(l: Layout, mat: seq<PageState>, flatMat: seq<PageState>)
    requires |mat| == |flatMat|
  {
    forall i :: 0 <= i < |mat| && !Pinned(l, l.dataStart + i) ==> (mat[i] == PresentRw <==> flatMat[i] == PresentRw)
  }

  /** The flat buffer holds the effective bytes: overlay first, then backing. */
  ghost predicate SameBytes(l: Layout, phys: map<nat, seq<byte>>, overlay: seq<Option<nat>>, flat: seq<byte>)
    requires |overlay| == |l.backing| && |flat| == 4096 * |l.backing|
    requires forall i :: 0 <= i < |overlay| ==> Source(l, overlay, i) in phys && |phys[Source(l, overlay, i)]| == 4096
  {
    forall i, k :: 0 <= i < |overlay| && 0 <= k < 4096 ==> phys[Source(l, overlay, i)][k] == flat[4096 * i + k]
  }

  ghost predicate Agree(l: Layout, s: State, m: Mem) {
    && Inv(l, s)
    && SameShape(l, m)
    && SamePaid(l, s.mat, m.mat)
    && SameBytes(l, s.phys, s.overlay, m.flat)
  }

  lemma DataIndex(l: Layout, m: Mem, p: nat)
    requires SameShape(l, m) && p < 0x10_0000 && l.dataStart <= l.dataEnd && |l.backing| == l.dataEnd - l.dataStart
    ensures PageIndex(m, p) == if InData(l, p) then Some(p - l.dataStart) else None
    ensures forall isWrite :: Accessible(m, p, isWrite) <==> InData(l, p) && !(isWrite && Pinned(l, p))
    ensures IsCodePage(m, p) <==> InCode(l, p)
  {
  }

  lemma MapUnitCost(l: Layout, s: State, m: Mem, p: nat, isWrite: bool)
    requires Inv(l, s) && SameShape(l, m) && InData(l, p) && IsRo(l, p) && Accessible(m, p, isWrite)
    ensures
      var s', t := MapUnit(l, s, p), TouchPage(m, p, isWrite);
      !isWrite && t.mem == m && t.charge == 0 && s' == s.(leaves := s'.leaves, roUnits := s'.roUnits)
  {
    hide RangesOk, RangeFor;
    DataIndex(l, m, p);
  }

  lemma MapDataCost(l: Layout, s: State, m: Mem, p: nat, isWrite: bool)
    requires Agree(l, s, m)
    requires InData(l, p) && !Pinned(l, p) && Accessible(m, p, isWrite)
    ensures
      var s', t := MapData(l, s, p, isWrite), TouchPage(m, p, isWrite);
      SameShape(l, t.mem) && SamePaid(l, s'.mat, t.mem.mat) && t.mem.flat == m.flat && s.gas - s'.gas == t.charge
  {
    hide RangesOk, RangeFor, LeavesOk, MatsOk, UnitsOk;
    DataIndex(l, m, p);
  }

  lemma MapDataKeepsBytes(l: Layout, s: State, p: nat, isWrite: bool, flat: seq<byte>)
    requires Inv(l, s) && InData(l, p) && !Pinned(l, p) && |flat| == 4096 * |l.backing|
    requires SameBytes(l, s.phys, s.overlay, flat)
    ensures
      var s' := MapData(l, s, p, isWrite);
      Inv(l, s') && SameBytes(l, s'.phys, s'.overlay, flat)
  {
    hide RangesOk, RangeFor;
    MapDataKeepsInv(l, s, p, isWrite);
    var s' := MapData(l, s, p, isWrite);
    forall i, k | 0 <= i < |s.overlay| && 0 <= k < 4096
      ensures s'.phys[Source(l, s'.overlay, i)][k] == flat[4096 * i + k]
    {
      assert s'.phys[Source(l, s'.overlay, i)] == s.phys[Source(l, s.overlay, i)];
    }
  }

  ghost predicate BackingKept(l: Layout, s: State, s': State) {
    forall i :: 0 <= i < |l.backing| && l.backing[i] in s.phys ==> l.backing[i] in s'.phys && s'.phys[l.backing[i]] == s.phys[l.backing[i]]
  }

  lemma MapPageKeepsBacking(l: Layout, s: State, p: nat, isWrite: bool)
    requires Inv(l, s) && (InCode(l, p) || InData(l, p)) && !(isWrite && IsRo(l, p))
    ensures BackingKept(l, s, MapPage(l, s, p, isWrite))
  {
    hide LeavesOk, UnitsOk, MatsOk, RangesOk, RangeFor;
    if !IsRo(l, p) {
      MapDataKeepsInv(l, s, p, isWrite);
    }
  }

  /** Materializing a page and touching it in the flat memory keep agreement and
      cost the same. */
  lemma MapPageAgrees(l: Layout, s: State, m: Mem, p: nat, isWrite: bool)
    requires Agree(l, s, m) && InData(l, p) && !(isWrite && Pinned(l, p)) && Accessible(m, p, isWrite)
    ensures
      var s', t := MapPage(l, s, p, isWrite), TouchPage(m, p, isWrite);
      && Agree(l, s', t.mem) && s.gas - s'.gas == t.charge
      && Permits(s'.leaves, p, isWrite) && KeepsPermits(s.leaves, s'.leaves) && BackingKept(l, s, s')
  {
    MapPageKeepsBacking(l, s, p, isWrite);
    hide Inv, SamePaid, SameBytes, MapData, MapUnit, TouchPage, Pinned, KeepsPermits, Accessible;
    if IsRo(l, p) {
      MapUnitKeepsInv(l, s, p);
      MapUnitCost(l, s, m, p, isWrite);
    } else {
      MapDataKeepsInv(l, s, p, isWrite);
      MapDataKeepsBytes(l, s, p, isWrite, m.flat);
      MapDataCost(l, s, m, p, isWrite);
    }
  }

  lemma PermittedState(l: Layout, s: State, p: nat, isWrite: bool)
    requires Inv(l, s) && InData(l, p) && Permits(s.leaves, p, isWrite)
    ensures isWrite ==> !Pinned(l, p) && s.mat[p - l.dataStart] == PresentRw
  {
    hide RangesOk, RangeFor, FramesOk, CodeFramesOk, UnitsOk;
    var i := p - l.dataStart;
    assert LeafOk(l, s.overlay, s.mat, p, s.leaves[p]);
    assert MatOk(l, s.leaves, s.overlay[i], s.mat[i], p);
  }

  /** A page the hardware already permits is free in the flat memory too. */
  lemma PermittedIsFree(l: Layout, s: State, m: Mem, p: nat, isWrite: bool)
    requires Agree(l, s, m) && InData(l, p) && Permits(s.leaves, p, isWrite)
    ensures Accessible(m, p, isWrite)
    ensures var t := TouchPage(m, p, isWrite); Agree(l, s, t.mem) && t.charge == 0
  {
    hide FramesOk, CodeFramesOk, LeavesOk, UnitsOk, MatsOk, RangesOk, RangeFor, SameBytes;
    DataIndex(l, m, p);
    PermittedState(l, s, p, isWrite);
  }

  // ---- Hardware access, fault and retry ----------------------------------

  datatype Op = ReadOp(width: nat) | WriteOp(data: seq<byte>) {
    function Width(): nat {
      match this
      case ReadOp(width) => width
      case WriteOp(data) => |data|
    }
    predicate Valid() {
      1 <= Width() <= 8
    }
  }

  predicate AllPermit(leaves: map<nat, Leaf>, addr: u32, width: nat, isWrite: bool)
    requires 1 <= width <= 8
  {
    forall p :: p in AccessPages(addr, width) ==> Permits(leaves, p, isWrite)
  }

  predicate Mapped(s: State, a: nat) {
    && a / 4096 in s.leaves
    && s.leaves[a / 4096].frame in s.phys
    && |s.phys[s.leaves[a / 4096].frame]| == 4096
  }

  function PhysByte(s: State, a: nat): byte
    requires Mapped(s, a)
  {
    s.phys[s.leaves[a / 4096].frame][a % 4096]
  }

  /** Bytes the hardware reads through the mapping. */
  function PhysRead(s: State, addr: nat, width: nat): (r: seq<byte>)
    requires forall a :: addr <= a < addr + width ==> Mapped(s, a)
    ensures |r| == width
  {
    seq<byte>(width, k requires 0 <= k < width => PhysByte(s, addr + k))
  }

  function PokeByte(s: State, a: nat, b: byte): (s': State)
    requires Mapped(s, a)
    ensures forall c :: Mapped(s, c) ==> Mapped(s', c)
  {
    var f := s.leaves[a / 4096].frame;
    var page: seq<byte> := s.phys[f][a % 4096 := b];
    s.(phys := s.phys[f := page])
  }

  /** Physical memory after a store of `data` at `addr`, byte by byte. */
  function PhysWrite(s: State, addr: nat, data: seq<byte>): (s': State)
    requires forall a :: addr <= a < addr + |data| ==> Mapped(s, a)
    ensures s' == s.(phys := s'.phys)
    decreases |data|
  {
    if data == [] then s
    else
      var s1 := PokeByte(s, addr, data[0]);
      PhysWrite(s1, addr + 1, data[1..])
  }

  predicate DataByte(l: Layout, leaves: map<nat, Leaf>, a: nat, isWrite: bool) {
    InData(l, a / 4096) && Permits(leaves, a / 4096, isWrite)
  }

  /** Every byte of the range is a data byte; for a store, in a page mapped
      writable. */
  ghost predicate DataSpan(l: Layout, s: State, addr: nat, width: nat, isWrite: bool) {
    forall a :: addr <= a < addr + width ==> DataByte(l, s.leaves, a, isWrite)
  }

  lemma SpanMapped(l: Layout, s: State, a: nat)
    requires Inv(l, s) && a / 4096 in s.leaves
    ensures Mapped(s, a)
    ensures InData(l, a / 4096) ==> s.leaves[a / 4096].frame == Source(l, s.overlay, a / 4096 - l.dataStart)
    ensures InCode(l, a / 4096) ==> s.leaves[a / 4096].frame == l.codeFrame + (a / 4096 - l.codeStart)
  {
    hide RangesOk;
    assert LeafOk(l, s.overlay, s.mat, a / 4096, s.leaves[a / 4096]);
  }

  lemma ReadByteAgrees(l: Layout, s: State, m: Mem, a: nat)
    requires Agree(l, s, m) && DataByte(l, s.leaves, a, false)
    ensures Mapped(s, a) && m.base <= a < m.base + |m.flat| && PhysByte(s, a) == m.flat[a - m.base]
  {
    hide RangesOk;
    SpanMapped(l, s, a);
    assert a - m.base == 4096 * (a / 4096 - l.dataStart) + a % 4096;
  }

  lemma ReadDataAgrees(l: Layout, s: State, m: Mem, addr: u32, width: nat)
    requires Agree(l, s, m) && DataSpan(l, s, addr, width, false) && width > 0
    ensures forall a :: addr <= a < addr + width ==> Mapped(s, a)
    ensures Read(m, addr, width) == Some(PhysRead(s, addr, width))
  {
    hide Inv, SameBytes, Mapped, PhysByte, DataByte;
    forall a | addr <= a < addr + width
      ensures Mapped(s, a) && m.base <= a < m.base + |m.flat| && PhysByte(s, a) == m.flat[a - m.base]
    {
      ReadByteAgrees(l, s, m, a);
    }
    ReadByteAgrees(l, s, m, addr);
    ReadByteAgrees(l, s, m, addr + width - 1);
    assert m.flat[addr - m.base..addr - m.base + width] == PhysRead(s, addr, width);
  }

  lemma PokeAgrees(l: Layout, s: State, flat: seq<byte>, a: nat, b: byte)
    requires Inv(l, s) && |flat| == 4096 * |l.backing| && SameBytes(l, s.phys, s.overlay, flat)
    requires DataSpan(l, s, a, 1, true)
    ensures Mapped(s, a) && 0 <= a - 4096 * l.dataStart < |flat|
    ensures
      var s' := PokeByte(s, a, b);
      && Inv(l, s') && SameBytes(l, s'.phys, s'.overlay, flat[a - 4096 * l.dataStart := b])
      && BackingKept(l, s, s')
  {
    hide RangesOk;
    assert DataByte(l, s.leaves, a, true);
    SpanMapped(l, s, a);
    var i := a / 4096 - l.dataStart;
    assert LeafOk(l, s.overlay, s.mat, a / 4096, s.leaves[a / 4096]);
    var s' := PokeByte(s, a, b);
    var f := Source(l, s.overlay, i);
    assert s'.phys[f] == s.phys[f][a % 4096 := b];
    assert forall j :: 0 <= j < |s.overlay| && j != i ==> s'.phys[Source(l, s.overlay, j)] == s.phys[Source(l, s.overlay, j)];
  }

  lemma {:induction false} WriteAgrees(l: Layout, s: State, flat: seq<byte>, addr: nat, data: seq<byte>)
    requires Inv(l, s) && |flat| == 4096 * |l.backing| && SameBytes(l, s.phys, s.overlay, flat)
    requires DataSpan(l, s, addr, |data|, true)
    requires 4096 * l.dataStart <= addr && addr - 4096 * l.dataStart + |data| <= |flat|
    ensures forall a :: addr <= a < addr + |data| ==> Mapped(s, a)
    ensures
      var s' := PhysWrite(s, addr, data);
      var o := addr - 4096 * l.dataStart;
      && Inv(l, s') && SameBytes(l, s'.phys, s'.overlay, flat[..o] + data + flat[o + |data|..])
      && BackingKept(l, s, s')
    decreases |data|
  {
    hide Inv, SameBytes;
    forall a | addr <= a < addr + |data| ensures Mapped(s, a) {
      assert DataByte(l, s.leaves, a, true);
      SpanMapped(l, s, a);
    }
    var o := addr - 4096 * l.dataStart;
    if data == [] {
      assert flat[..o] + data + flat[o..] == flat;
    } else {
      PokeAgrees(l, s, flat, addr, data[0]);
      WriteAgrees(l, PokeByte(s, addr, data[0]), flat[o := data[0]], addr + 1, data[1..]);
      assert flat[o := data[0]][..o + 1] + data[1..] + flat[o := data[0]][o + 1 + |data[1..]|..]
          == flat[..o] + data + flat[o + |data|..];
    }
  }

  lemma PermittedRegion(l: Layout, s: State, p: nat, isWrite: bool)
    requires Inv(l, s) && Permits(s.leaves, p, isWrite)
    ensures (InCode(l, p) && !isWrite) || (InData(l, p) && !(isWrite && Pinned(l, p)))
    ensures p < 0xF_FFFF
  {
    hide RangesOk, RangeFor;
    assert LeafOk(l, s.overlay, s.mat, p, s.leaves[p]);
    if InData(l, p) && !InCode(l, p) {
      assert MatOk(l, s.leaves, s.overlay[p - l.dataStart], s.mat[p - l.dataStart], p);
    }
  }

  /** A permitted access stays below 4 GiB, so its bytes do not wrap. */
  lemma PermittedSpan(l: Layout, s: State, addr: u32, width: nat, isWrite: bool)
    requires Inv(l, s) && 1 <= width <= 8 && AllPermit(s.leaves, addr, width, isWrite)
    ensures forall a :: addr <= a < addr + width ==> a / 4096 in AccessPages(addr, width) && Mapped(s, a)
  {
    hide Inv, Mapped;
    var pages := AccessPages(addr, width);
    assert pages[0] in pages;
    PermittedRegion(l, s, pages[0], isWrite);
    forall a | addr <= a < addr + width ensures a / 4096 in pages && Mapped(s, a) {
      assert ByteAddr(addr, a - addr) == a;
      AccessPagesExact(addr, width, a / 4096);
      SpanMapped(l, s, a);
    }
  }

  /** Outcome of an access: it completed, it became a guest page fault, or it
      was still faulting when the allowance of faults ran out. */
  datatype Outcome = Done(s: State, bytes: seq<byte>) | Faulted(s: State) | Unresolved(s: State)

  function Perform(l: Layout, s: State, addr: u32, op: Op): Outcome
    requires Inv(l, s) && op.Valid() && AllPermit(s.leaves, addr, op.Width(), op.WriteOp?)
  {
    PermittedSpan(l, s, addr, op.Width(), op.WriteOp?);
    match op
    case ReadOp(width) => Done(s, PhysRead(s, addr, width))
    case WriteOp(data) => Done(PhysWrite(s, addr, data), data)
  }

  /** The hardware reports the first accessed byte in the lowest page that does
      not permit the access. */
  function FaultAddr(leaves: map<nat, Leaf>, addr: u32, width: nat, isWrite: bool): u32
    requires 1 <= width <= 8 && !AllPermit(leaves, addr, width, isWrite)
  {
    var pages := AccessPages(addr, width);
    if Permits(leaves, pages[0], isWrite) then 4096 * pages[1] else addr
  }

  lemma MaterializeKeepsInv(l: Layout, s: State, gva: u32, width: nat, isWrite: bool)
    requires Inv(l, s) && 1 <= width <= 8
    ensures Materialize(l, s, gva, width, isWrite).Some? ==> Inv(l, Materialize(l, s, gva, width, isWrite).value)
  {
    hide FramesOk, CodeFramesOk, LeavesOk, UnitsOk, MatsOk, RangesOk, RangeFor, MapPage;
    var pages := AccessPages(gva, width);
    if Materialize(l, s, gva, width, isWrite).Some? {
      MapPageKeepsInv(l, s, pages[0], isWrite);
      if |pages| == 2 {
        MapPageKeepsInv(l, MapPage(l, s, pages[0], isWrite), pages[1], isWrite);
      }
    }
  }

  /** Access, fault, retry, taking at most `faults` faults. */
  function Attempt(l: Layout, s: State, addr: u32, op: Op, faults: nat): Outcome
    requires Inv(l, s) && op.Valid()
    decreases faults
  {
    if AllPermit(s.leaves, addr, op.Width(), op.WriteOp?) then Perform(l, s, addr, op)
    else if faults == 0 then Unresolved(s)
    else
      var gva := FaultAddr(s.leaves, addr, op.Width(), op.WriteOp?);
      match Materialize(l, s, gva, op.Width(), op.WriteOp?)
      case None => Faulted(s)
      case Some(s') =>
        MaterializeKeepsInv(l, s, gva, op.Width(), op.WriteOp?);
        Attempt(l, s', addr, op, faults - 1)
  }

  // ---- The interpreter's side and the theorem ----------------------------

  function FlatAccess(l: Layout, m: Mem, addr: u32, op: Op): Access
    requires Valid(m) && op.Valid()
  {
    match op
    case ReadOp(width) => Load(m, l.code, m.codeBase, addr, width)
    case WriteOp(data) => Store(m, addr, data)
  }

  /** What agreement after an access means: the same bytes or both a fault, the
      same debit, and a resolved access after at most one fault. */
  ghost predicate AccessAgrees(l: Layout, s: State, r: Outcome, f: Access) {
    match r
    case Done(s', bytes) =>
      f.bytes == Some(bytes) && Agree(l, s', f.mem) && s.gas - s'.gas == f.charge && BackingKept(l, s, s')
    case Faulted(s') => s' == s && f.bytes.None? && Agree(l, s, f.mem) && f.charge == 0
    case Unresolved(_) => false
  }

  lemma MapCodeAgrees(l: Layout, s: State, m: Mem, p: nat)
    requires Agree(l, s, m) && InCode(l, p)
    ensures
      var s' := MapPage(l, s, p, false);
      Agree(l, s', m) && s'.gas == s.gas && s'.phys == s.phys && Permits(s'.leaves, p, false) && KeepsPermits(s.leaves, s'.leaves)
  {
    hide Inv, SameBytes, SamePaid, SameShape, KeepsPermits;
    MapUnitKeepsInv(l, s, p);
  }

  lemma ReadCodeAgrees(l: Layout, s: State, addr: u32, width: nat)
    requires Inv(l, s) && 1 <= width <= 8 && AllPermit(s.leaves, addr, width, false)
    requires forall p :: p in AccessPages(addr, width) ==> InCode(l, p)
    ensures ReadCode(l.code, 4096 * l.codeStart, addr, width).Some?
    ensures Perform(l, s, addr, ReadOp(width)) == Done(s, ReadCode(l.code, 4096 * l.codeStart, addr, width).value)
  {
    hide RangesOk, RangeFor, FramesOk, LeavesOk, MatsOk, UnitsOk;
    PermittedSpan(l, s, addr, width, false);
    forall a | addr <= a < addr + width ensures
      && InCode(l, a / 4096)
      && var o := a - 4096 * l.codeStart; PhysByte(s, a) == if o < |l.code| then l.code[o] else 0
    {
      assert Mapped(s, a);
      SpanMapped(l, s, a);
      assert a - 4096 * l.codeStart == 4096 * (a / 4096 - l.codeStart) + a % 4096;
    }
    assert InCode(l, addr / 4096) && InCode(l, (addr + width - 1) / 4096);
    assert PhysRead(s, addr, width) == ReadCode(l.code, 4096 * l.codeStart, addr, width).value;
  }

  // ---- Refused accesses ---------------------------------------------------

  predicate Declared(l: Layout, addr: u32, width: nat, isWrite: bool)
    requires 1 <= width <= 8
  {
    var pages := AccessPages(addr, width);
    forall k :: 0 <= k < |pages| ==> Materializable(l, pages[0], pages[k], isWrite)
  }

  /** An access the layout does not allow faults at once, whatever is mapped:
      either its base page faults and the whole set is refused, or the base page
      is mapped and the straddle page is refused by itself. */
  lemma RefusedFaults(l: Layout, s: State, addr: u32, op: Op)
    requires Inv(l, s) && op.Valid() && !Declared(l, addr, op.Width(), op.WriteOp?) && Gap(l)
    ensures Attempt(l, s, addr, op, 1) == Faulted(s)
  {
    hide FramesOk, CodeFramesOk, LeavesOk, UnitsOk, MatsOk, RangesOk, RangeFor;
    var width, isWrite := op.Width(), op.WriteOp?;
    var pages := AccessPages(addr, width);
    assert forall k :: 0 <= k < |pages| ==> pages[k] in pages;
    if Permits(s.leaves, pages[0], isWrite) {
      PermittedRegion(l, s, pages[0], isWrite);
      var p := pages[1];
      assert p == pages[0] + 1 && !Materializable(l, pages[0], p, isWrite);
      if Permits(s.leaves, p, isWrite) {
        PermittedRegion(l, s, p, isWrite);
      }
      assert AccessPages(4096 * p, width) == [p];
      assert !Materializable(l, p, p, isWrite);
    }
  }

  lemma RefusedFlat(l: Layout, s: State, m: Mem, addr: u32, op: Op)
    requires Agree(l, s, m) && op.Valid() && !Declared(l, addr, op.Width(), op.WriteOp?)
    ensures FlatAccess(l, m, addr, op) == Access(m, 0, None)
  {
    hide FramesOk, CodeFramesOk, LeavesOk, UnitsOk, MatsOk, RangesOk, RangeFor, SameBytes, SamePaid;
    var width, isWrite := op.Width(), op.WriteOp?;
    var pages := AccessPages(addr, width);
    assert pages[0] == addr / 4096;
    forall k | 0 <= k < |pages| ensures
      && pages[k] in pages
      && (Accessible(m, pages[k], isWrite) <==> InData(l, pages[k]) && !(isWrite && Pinned(l, pages[k])))
      && (IsCodePage(m, pages[k]) <==> InCode(l, pages[k]))
    {
      DataIndex(l, m, pages[k]);
    }
    DataIndex(l, m, pages[0]);
    if InData(l, pages[0]) || InCode(l, pages[0]) {
      assert Touch(m, addr, width, isWrite).None?;
    } else {
      assert Touch(m, addr, width, isWrite) == Some(Touched(m, 0));
      assert Read(m, addr, width).None?;
    }
  }

  // ---- Allowed accesses ---------------------------------------------------

  /** State in which a declared access goes through: now, or after one fault. */
  ghost function Resolve(l: Layout, s: State, addr: u32, op: Op): State
    requires Inv(l, s) && op.Valid() && Declared(l, addr, op.Width(), op.WriteOp?)
  {
    if AllPermit(s.leaves, addr, op.Width(), op.WriteOp?) then s
    else
      var pages := AccessPages(addr, op.Width());
      if Permits(s.leaves, pages[0], op.WriteOp?) then MapPage(l, s, pages[1], op.WriteOp?)
      else if |pages| == 1 then MapPage(l, s, pages[0], op.WriteOp?)
      else
        MapPageKeepsInv(l, s, pages[0], op.WriteOp?);
        MapPage(l, MapPage(l, s, pages[0], op.WriteOp?), pages[1], op.WriteOp?)
  }

  lemma ResolveCode(l: Layout, s: State, m: Mem, addr: u32, op: Op)
    requires Agree(l, s, m) && op.Valid() && Declared(l, addr, op.Width(), op.WriteOp?)
    requires InCode(l, AccessPages(addr, op.Width())[0])
    ensures op.ReadOp? && forall p :: p in AccessPages(addr, op.Width()) ==> InCode(l, p)
    ensures
      var s1 := Resolve(l, s, addr, op);
      Agree(l, s1, m) && s1.gas == s.gas && s1.phys == s.phys && AllPermit(s1.leaves, addr, op.Width(), op.WriteOp?)
  {
    hide Inv, SameBytes, SamePaid, SameShape, MapPage;
    var pages := AccessPages(addr, op.Width());
    assert forall k :: 0 <= k < |pages| ==> Materializable(l, pages[0], pages[k], op.WriteOp?);
    MapCodeAgrees(l, s, m, pages[0]);
    if |pages| == 2 {
      MapCodeAgrees(l, s, m, pages[1]);
      MapCodeAgrees(l, MapPage(l, s, pages[0], false), m, pages[1]);
    }
  }

  /** The straddle page, when the base page was mapped already. */
  lemma ResolveSecond(l: Layout, s: State, m: Mem, p: nat, isWrite: bool)
    requires Agree(l, s, m) && InData(l, p) && !(isWrite && Pinned(l, p)) && Accessible(m, p, isWrite)
    ensures
      var s1 := if Permits(s.leaves, p, isWrite) then s else MapPage(l, s, p, isWrite);
      var t := TouchPage(m, p, isWrite);
      Agree(l, s1, t.mem) && s.gas - s1.gas == t.charge && Permits(s1.leaves, p, isWrite) && KeepsPermits(s.leaves, s1.leaves) && BackingKept(l, s, s1)
  {
    hide Inv, SameBytes, SamePaid, SameShape, MapPage, TouchPage, Accessible;
    if Permits(s.leaves, p, isWrite) {
      PermittedIsFree(l, s, m, p, isWrite);
    } else {
      MapPageAgrees(l, s, m, p, isWrite);
    }
  }

  lemma ResolveData(l: Layout, s: State, m: Mem, addr: u32, op: Op)
    requires Agree(l, s, m) && op.Valid() && Declared(l, addr, op.Width(), op.WriteOp?)
    requires !InCode(l, AccessPages(addr, op.Width())[0])
    ensures forall p :: p in AccessPages(addr, op.Width()) ==> InData(l, p) && Accessible(m, p, op.WriteOp?)
    ensures
      var pages := AccessPages(addr, op.Width());
      var s1, t := Resolve(l, s, addr, op), TouchPages(m, pages, op.WriteOp?);
      Agree(l, s1, t.mem) && s.gas - s1.gas == t.charge && AllPermit(s1.leaves, addr, op.Width(), op.WriteOp?) && BackingKept(l, s, s1)
  {
    hide FramesOk, CodeFramesOk, LeavesOk, UnitsOk, MatsOk, RangesOk, RangeFor, SameBytes, SamePaid, MapPage, TouchPage, TouchPages, Accessible;
    var isWrite := op.WriteOp?;
    var pages := AccessPages(addr, op.Width());
    forall k | 0 <= k < |pages| ensures pages[k] in pages && InData(l, pages[k]) && Accessible(m, pages[k], isWrite) {
      assert Materializable(l, pages[0], pages[k], isWrite);
      DataIndex(l, m, pages[k]);
    }
    TouchPagesInOrder(m, pages, isWrite);
    var t0 := TouchPage(m, pages[0], isWrite);
    if Permits(s.leaves, pages[0], isWrite) {
      PermittedIsFree(l, s, m, pages[0], isWrite);
      if |pages| == 2 {
        ResolveSecond(l, s, t0.mem, pages[1], isWrite);
      }
    } else {
      MapPageAgrees(l, s, m, pages[0], isWrite);
      if |pages| == 2 {
        MapPageAgrees(l, MapPage(l, s, pages[0], isWrite), t0.mem, pages[1], isWrite);
      }
    }
  }

  lemma AttemptResolves(l: Layout, s: State, addr: u32, op: Op)
    requires Inv(l, s) && op.Valid() && Declared(l, addr, op.Width(), op.WriteOp?)
    requires Inv(l, Resolve(l, s, addr, op)) && AllPermit(Resolve(l, s, addr, op).leaves, addr, op.Width(), op.WriteOp?)
    ensures Attempt(l, s, addr, op, 1) == Perform(l, Resolve(l, s, addr, op), addr, op)
  {
    hide FramesOk, CodeFramesOk, LeavesOk, UnitsOk, MatsOk, RangesOk, RangeFor, MapPage, Perform;
    var width, isWrite := op.Width(), op.WriteOp?;
    var pages := AccessPages(addr, width);
    if !AllPermit(s.leaves, addr, width, isWrite) {
      if Permits(s.leaves, pages[0], isWrite) {
        PermittedRegion(l, s, pages[0], isWrite);
        assert pages[1] in pages && AccessPages(4096 * pages[1], width) == [pages[1]];
        assert Materializable(l, pages[0], pages[1], isWrite);
      }
      var gva := FaultAddr(s.leaves, addr, width, isWrite);
      assert Materialize(l, s, gva, width, isWrite) == Some(Resolve(l, s, addr, op));
    }
  }

  lemma ResolvedSpan(l: Layout, s: State, addr: u32, op: Op)
    requires Inv(l, s) && op.Valid() && AllPermit(s.leaves, addr, op.Width(), op.WriteOp?)
    requires forall p :: p in AccessPages(addr, op.Width()) ==> InData(l, p)
    ensures DataSpan(l, s, addr, op.Width(), op.WriteOp?) && DataSpan(l, s, addr, op.Width(), false)
    ensures 4096 * l.dataStart <= addr && addr + op.Width() <= 4096 * l.dataEnd
  {
    hide Inv, Mapped;
    PermittedSpan(l, s, addr, op.Width(), op.WriteOp?);
    forall a | addr <= a < addr + op.Width() ensures DataByte(l, s.leaves, a, op.WriteOp?) && DataByte(l, s.leaves, a, false) {
      assert a / 4096 in AccessPages(addr, op.Width());
    }
    assert DataByte(l, s.leaves, addr, false) && DataByte(l, s.leaves, addr + op.Width() - 1, false);
  }

  /** Once the pages permit the access, the bytes transferred agree. */
  lemma PerformReadAgrees(l: Layout, s: State, m: Mem, addr: u32, width: nat)
    requires Agree(l, s, m) && 1 <= width <= 8 && AllPermit(s.leaves, addr, width, false)
    requires forall p :: p in AccessPages(addr, width) ==> InData(l, p)
    ensures Read(m, addr, width).Some? && Perform(l, s, addr, ReadOp(width)) == Done(s, Read(m, addr, width).value)
  {
    hide Inv, SameBytes, SamePaid, SameShape, AllPermit, Mapped, Read;
    ResolvedSpan(l, s, addr, ReadOp(width));
    PermittedSpan(l, s, addr, width, false);
    ReadDataAgrees(l, s, m, addr, width);
  }

  ghost predicate StoreAgrees(l: Layout, s: State, data: seq<byte>, r: Outcome, w: Option<Mem>) {
    && r.Done? && r.bytes == data && r.s.gas == s.gas && BackingKept(l, s, r.s)
    && w.Some? && Agree(l, r.s, w.value)
  }

  /** Both end pages of a permitted write are declared writable. */
  lemma DataWritable(l: Layout, s: State, m: Mem, addr: u32, data: seq<byte>)
    requires Agree(l, s, m) && 1 <= |data| <= 8 && AllPermit(s.leaves, addr, |data|, true)
    requires forall p :: p in AccessPages(addr, |data|) ==> InData(l, p) && !Pinned(l, p)
    ensures StoreWritable(m, addr, |data|)
  {
    hide FramesOk, CodeFramesOk, LeavesOk, UnitsOk, MatsOk, RangesOk, RangeFor, SameBytes, SamePaid, Mapped, AllPermit, Pinned, DataSpan;
    ResolvedSpan(l, s, addr, WriteOp(data));
    assert addr / 4096 in AccessPages(addr, |data|) && (addr + |data| - 1) / 4096 in AccessPages(addr, |data|);
    assert PermOf(m, addr) == ReadWrite && PermOf(m, addr + |data| - 1) == ReadWrite;
  }

  lemma PerformWriteAgrees(l: Layout, s: State, m: Mem, addr: u32, data: seq<byte>)
    requires Agree(l, s, m) && 1 <= |data| <= 8 && AllPermit(s.leaves, addr, |data|, true)
    requires forall p :: p in AccessPages(addr, |data|) ==> InData(l, p) && !Pinned(l, p)
    ensures StoreWritable(m, addr, |data|)
    ensures StoreAgrees(l, s, data, Perform(l, s, addr, WriteOp(data)), Write(m, addr, data))
  {
    hide FramesOk, CodeFramesOk, LeavesOk, UnitsOk, MatsOk, RangesOk, RangeFor, SameBytes, SamePaid, Mapped, AllPermit, Pinned, DataSpan;
    DataWritable(l, s, m, addr, data);
    hide StoreWritable, AccessPages, InData, PermOf;
    ResolvedSpan(l, s, addr, WriteOp(data));
    PermittedSpan(l, s, addr, |data|, true);
    WriteAgrees(l, s, m.flat, addr, data);
  }

  lemma DeclaredCodeFlat(l: Layout, s: State, m: Mem, addr: u32, width: nat)
    requires Agree(l, s, m) && 1 <= width <= 8 && Declared(l, addr, width, false)
    requires InCode(l, AccessPages(addr, width)[0])
    ensures Touch(m, addr, width, false) == Some(Touched(m, 0)) && Read(m, addr, width).None?
  {
    hide FramesOk, CodeFramesOk, LeavesOk, UnitsOk, MatsOk, RangesOk, RangeFor, SameBytes, SamePaid;
    var pages := AccessPages(addr, width);
    forall k | 0 <= k < |pages| ensures IsCodePage(m, pages[k]) && PageIndex(m, pages[k]).None? {
      assert Materializable(l, pages[0], pages[k], false) && pages[k] in pages;
      DataIndex(l, m, pages[k]);
    }
  }

  lemma DeclaredDataFlat(l: Layout, s: State, m: Mem, addr: u32, width: nat, isWrite: bool)
    requires Agree(l, s, m) && 1 <= width <= 8 && Declared(l, addr, width, isWrite)
    requires !InCode(l, AccessPages(addr, width)[0])
    ensures forall p :: p in AccessPages(addr, width) ==> InData(l, p) && !(isWrite && Pinned(l, p)) && Accessible(m, p, isWrite)
    ensures Touch(m, addr, width, isWrite) == Some(TouchPages(m, AccessPages(addr, width), isWrite))
  {
    hide FramesOk, CodeFramesOk, LeavesOk, UnitsOk, MatsOk, RangesOk, RangeFor, SameBytes, SamePaid, TouchPages;
    var pages := AccessPages(addr, width);
    forall k | 0 <= k < |pages| ensures InData(l, pages[k]) && !(isWrite && Pinned(l, pages[k])) && Accessible(m, pages[k], isWrite) {
      assert Materializable(l, pages[0], pages[k], isWrite) && pages[k] in pages;
      DataIndex(l, m, pages[k]);
    }
    DataIndex(l, m, pages[0]);
  }

  /** Every access through the demand-built mapping ends as the same access on
      the flat memory does, after at most one fault. */
  lemma AccessIsFlatAccess(l: Layout, s: State, m: Mem, addr: u32, op: Op)
    requires Agree(l, s, m) && op.Valid() && Gap(l)
    ensures AccessAgrees(l, s, Attempt(l, s, addr, op, 1), FlatAccess(l, m, addr, op))
  {
    hide Inv, SameBytes, SamePaid, Perform, AllPermit, Permits, KeepsPermits, Touch, TouchPages, StoreWritable, Read, Write, Attempt, Declared, ReadCode, Pinned;
    if !Declared(l, addr, op.Width(), op.WriteOp?) {
      RefusedFaults(l, s, addr, op);
      RefusedFlat(l, s, m, addr, op);
    } else if InCode(l, AccessPages(addr, op.Width())[0]) {
      ResolveCode(l, s, m, addr, op);
      AttemptResolves(l, s, addr, op);
      ReadCodeAgrees(l, Resolve(l, s, addr, op), addr, op.Width());
      DeclaredCodeFlat(l, s, m, addr, op.Width());
    } else {
      ResolveData(l, s, m, addr, op);
      AttemptResolves(l, s, addr, op);
      DeclaredDataFlat(l, s, m, addr, op.Width(), op.WriteOp?);
      var m1 := TouchPages(m, AccessPages(addr, op.Width()), op.WriteOp?).mem;
      match op
      case ReadOp(width) => PerformReadAgrees(l, Resolve(l, s, addr, op), m1, addr, width);
      case WriteOp(data) => PerformWriteAgrees(l, Resolve(l, s, addr, op), m1, addr, data);
    }
  }

  // ---- Whole runs ---------------------------------------------------------

  datatype Request = Request(addr: u32, op: Op)

  datatype Reply = Got(bytes: seq<byte>) | PageFault | Stuck

  datatype Served = Served(s: State, replies: seq<Reply>)

  datatype FlatServed = FlatServed(m: Mem, replies: seq<Reply>, debit: nat)

  predicate ValidRequests(reqs: seq<Request>) {
    forall k :: 0 <= k < |reqs| ==> reqs[k].op.Valid()
  }

  function ReplyOf(r: Outcome): Reply {
    match r
    case Done(_, bytes) => Got(bytes)
    case Faulted(_) => PageFault
    case Unresolved(_) => Stuck
  }

  /** The effective data bytes of a frame, as one flat buffer. */
  function Effective(l: Layout, s: State): (flat: seq<byte>)
    requires Inv(l, s)
    ensures |flat| == 4096 * |l.backing| && SameBytes(l, s.phys, s.overlay, flat)
  {
    seq<byte>(4096 * |l.backing|, j requires 0 <= j < 4096 * |l.backing| => s.phys[Source(l, s.overlay, j / 4096)][j % 4096])
  }

  lemma BytesUnique(l: Layout, phys: map<nat, seq<byte>>, overlay: seq<Option<nat>>, a: seq<byte>, b: seq<byte>)
    requires |overlay| == |l.backing| && |a| == |b| == 4096 * |l.backing|
    requires forall i :: 0 <= i < |overlay| ==> Source(l, overlay, i) in phys && |phys[Source(l, overlay, i)]| == 4096
    requires SameBytes(l, phys, overlay, a) && SameBytes(l, phys, overlay, b)
    ensures a == b
  {
    hide Source;
    forall j | 0 <= j < |a| ensures a[j] == b[j] {
      var i, k := j / 4096, j % 4096;
      assert phys[Source(l, overlay, i)][k] == a[4096 * i + k];
    }
  }

  /** No other buffer holds them. */
  lemma EffectiveUnique(l: Layout, s: State, flat: seq<byte>)
    requires Inv(l, s) && |flat| == 4096 * |l.backing| && SameBytes(l, s.phys, s.overlay, flat)
    ensures Effective(l, s) == flat
  {
    hide LayoutOk, CodeFramesOk, LeavesOk, MatsOk, UnitsOk, SameBytes, Source;
    BytesUnique(l, s.phys, s.overlay, Effective(l, s), flat);
  }

  lemma DataExtent(l: Layout, s: State)
    requires Inv(l, s)
    ensures l.dataStart <= l.dataEnd && |l.backing| == l.dataEnd - l.dataStart
  {
  }

  lemma PerformKeepsInv(l: Layout, s: State, addr: u32, op: Op)
    requires Inv(l, s) && op.Valid() && AllPermit(s.leaves, addr, op.Width(), op.WriteOp?)
    ensures Inv(l, Perform(l, s, addr, op).s)
  {
    hide Inv, SameBytes;
    if op.WriteOp? {
      forall p | p in AccessPages(addr, op.Width()) ensures InData(l, p) {
        PermittedRegion(l, s, p, true);
      }
      ResolvedSpan(l, s, addr, op);
      PermittedSpan(l, s, addr, op.Width(), true);
      DataExtent(l, s);
      WriteAgrees(l, s, Effective(l, s), addr, op.data);
    }
  }

  lemma {:induction false} AttemptKeepsInv(l: Layout, s: State, addr: u32, op: Op, faults: nat)
    requires Inv(l, s) && op.Valid()
    ensures Inv(l, Attempt(l, s, addr, op, faults).s)
    decreases faults
  {
    hide Inv;
    if AllPermit(s.leaves, addr, op.Width(), op.WriteOp?) {
      PerformKeepsInv(l, s, addr, op);
    } else if faults > 0 {
      var gva := FaultAddr(s.leaves, addr, op.Width(), op.WriteOp?);
      MaterializeKeepsInv(l, s, gva, op.Width(), op.WriteOp?);
      match Materialize(l, s, gva, op.Width(), op.WriteOp?)
      case None =>
      case Some(s') => AttemptKeepsInv(l, s', addr, op, faults - 1);
    }
  }

  /** A run of accesses on the demand-paged memory, one fault allowed each. */
  function Serve(l: Layout, s: State, reqs: seq<Request>): (r: Served)
    requires Inv(l, s) && ValidRequests(reqs)
    ensures Inv(l, r.s) && |r.replies| == |reqs|
    decreases |reqs|
  {
    if reqs == [] then Served(s, [])
    else
      var r := Attempt(l, s, reqs[0].addr, reqs[0].op, 1);
      AttemptKeepsInv(l, s, reqs[0].addr, reqs[0].op, 1);
      var rest := Serve(l, r.s, reqs[1..]);
      Served(rest.s, [ReplyOf(r)] + rest.replies)
  }

  /** The same run on the interpreter's flat memory. */
  function FlatServe(l: Layout, m: Mem, reqs: seq<Request>): (r: FlatServed)
    requires Valid(m) && ValidRequests(reqs)
    ensures |r.replies| == |reqs|
    decreases |reqs|
  {
    if reqs == [] then FlatServed(m, [], 0)
    else
      var f := FlatAccess(l, m, reqs[0].addr, reqs[0].op);
      var rest := FlatServe(l, f.mem, reqs[1..]);
      FlatServed(rest.m, [if f.bytes.Some? then Got(f.bytes.value) else PageFault] + rest.replies, f.charge + rest.debit)
  }

  /** Over every run the two memories give the same replies and debit the same
      gas, no access needs a second fault, and the shared backing is untouched. */
  lemma {:induction false} ServeIsFlatServe(l: Layout, s: State, m: Mem, reqs: seq<Request>)
    requires Agree(l, s, m) && ValidRequests(reqs) && Gap(l)
    ensures
      var r, f := Serve(l, s, reqs), FlatServe(l, m, reqs);
      r.replies == f.replies && s.gas - r.s.gas == f.debit && Agree(l, r.s, f.m) && BackingKept(l, s, r.s)
    decreases |reqs|
  {
    hide Inv, SameBytes, SamePaid, Attempt, FlatAccess;
    if reqs != [] {
      AccessIsFlatAccess(l, s, m, reqs[0].addr, reqs[0].op);
      var r, f := Attempt(l, s, reqs[0].addr, reqs[0].op, 1), FlatAccess(l, m, reqs[0].addr, reqs[0].op);
      ServeIsFlatServe(l, r.s, f.mem, reqs[1..]);
    }
  }

  // ---- When code abuts data ----------------------------------------------

  /** Reading the last code byte maps the code page; the same read one byte wider
      then faults on the data page alone, which the handler serves. */
  function AbuttingReads(l: Layout): seq<Request>
    requires LayoutOk(l)
  {
    [Request(4096 * l.dataStart - 1, ReadOp(1)), Request(4096 * l.dataStart - 1, ReadOp(2))]
  }

  lemma AbuttingBound(l: Layout, s: State)
    requires Inv(l, s)
    ensures 0 < 4096 * l.dataStart < 0x1_0000_0000
  {
    hide FramesOk, CodeFramesOk, LeavesOk, UnitsOk, MatsOk, RangesOk;
  }

  lemma MapPagePermits(l: Layout, s: State, p: nat)
    requires Inv(l, s) && (InCode(l, p) || InData(l, p))
    ensures
      var s' := MapPage(l, s, p, false);
      Inv(l, s') && Permits(s'.leaves, p, false) && KeepsPermits(s.leaves, s'.leaves)
  {
    if IsRo(l, p) {
      MapUnitKeepsInv(l, s, p);
    } else {
      MapDataKeepsInv(l, s, p, false);
    }
  }

  /** State after the read at `a` succeeded, faulting at most once. */
  lemma OneFault(l: Layout, s: State, a: u32, width: nat) returns (s': State)
    requires Inv(l, s) && (width == 1 || width == 2) && a == 4096 * l.dataStart - 1
    requires l.codeEnd == l.dataStart < l.dataEnd
    requires width == 2 ==> Permits(s.leaves, l.dataStart - 1, false)
    ensures Inv(l, s') && AllPermit(s'.leaves, a, width, false)
    ensures Attempt(l, s, a, ReadOp(width), 1) == Perform(l, s', a, ReadOp(width))
  {
    hide FramesOk, CodeFramesOk, LeavesOk, UnitsOk, MatsOk, RangesOk, RangeFor, MapPage, Perform;
    var pages := AccessPages(a, width);
    assert pages == if width == 1 then [l.dataStart - 1] else [l.dataStart - 1, l.dataStart];
    if AllPermit(s.leaves, a, width, false) {
      s' := s;
    } else {
      var p := pages[width - 1];
      var gva := FaultAddr(s.leaves, a, width, false);
      assert AccessPages(gva, width) == [p];
      s' := MapPage(l, s, p, false);
      MapPagePermits(l, s, p);
      assert Materialize(l, s, gva, width, false) == Some(s');
    }
  }

  lemma AbuttingRead(l: Layout, s: State, a: u32, width: nat) returns (s': State)
    requires Inv(l, s) && (width == 1 || width == 2) && a == 4096 * l.dataStart - 1
    requires l.codeEnd == l.dataStart < l.dataEnd
    requires width == 2 ==> Permits(s.leaves, l.dataStart - 1, false)
    ensures Inv(l, s') && Permits(s'.leaves, l.dataStart - 1, false)
    ensures Attempt(l, s, a, ReadOp(width), 1).Done? && Attempt(l, s, a, ReadOp(width), 1).s == s'
  {
    hide Inv, Attempt, PhysRead, Mapped, Permits;
    s' := OneFault(l, s, a, width);
    assert AccessPages(a, width)[0] == l.dataStart - 1;
  }

  /** The second reply of a two-request run. */
  lemma SecondReply(l: Layout, s: State, first: Request, second: Request)
    requires Inv(l, s) && ValidRequests([first, second]) && first.op.Valid() && second.op.Valid()
    ensures
      var s1 := Attempt(l, s, first.addr, first.op, 1).s;
      && Inv(l, s1)
      && Serve(l, s, [first, second]).replies[1] == ReplyOf(Attempt(l, s1, second.addr, second.op, 1))
  {
    hide Inv, Attempt;
    var reqs := [first, second];
    assert reqs[1..] == [second] && reqs[1] == second;
    AttemptKeepsInv(l, s, first.addr, first.op, 1);
    var s1 := Attempt(l, s, first.addr, first.op, 1).s;
    assert Serve(l, s1, [second]).replies[0] == ReplyOf(Attempt(l, s1, second.addr, second.op, 1));
  }

  lemma AbuttingHandler(l: Layout, s: State)
    requires Inv(l, s) && l.codeEnd == l.dataStart < l.dataEnd
    ensures Serve(l, s, AbuttingReads(l)).replies[1].Got?
  {
    hide Inv, Attempt, Serve, Permits;
    AbuttingBound(l, s);
    var a := 4096 * l.dataStart - 1;
    var s1 := AbuttingRead(l, s, a, 1);
    var s2 := AbuttingRead(l, s1, a, 2);
    SecondReply(l, s, Request(a, ReadOp(1)), Request(a, ReadOp(2)));
  }

  lemma AbuttingFlat(l: Layout, s: State, m: Mem)
    requires Agree(l, s, m) && l.codeEnd == l.dataStart < l.dataEnd
    ensures FlatServe(l, m, AbuttingReads(l)).replies[1].PageFault?
  {
    hide FramesOk, CodeFramesOk, LeavesOk, UnitsOk, MatsOk, RangesOk, RangeFor, SameBytes, SamePaid;
    var a := 4096 * l.dataStart - 1;
    var reqs := AbuttingReads(l);
    assert AccessPages(a, 1) == [l.dataStart - 1] && AccessPages(a, 2) == [l.dataStart - 1, l.dataStart];
    DataIndex(l, m, l.dataStart - 1);
    DataIndex(l, m, l.dataStart);
    assert FlatAccess(l, m, a, ReadOp(1)).mem == m;
    assert FlatAccess(l, m, a, ReadOp(2)).bytes.None?;
    assert reqs[1..] == [reqs[1]];
  }

  /** The handler agrees with the flat memory on every run exactly when code does
      not abut data: base-page dispatch sees the straddle only while the code
      page is still unmapped. */
  lemma AgreementNeedsGap(l: Layout, s: State, m: Mem)
    requires Agree(l, s, m) && l.dataStart < l.dataEnd
    ensures (forall reqs :: ValidRequests(reqs) ==> Serve(l, s, reqs).replies == FlatServe(l, m, reqs).replies) <==> Gap(l)
  {
    hide Inv, SameBytes, SamePaid, Serve, FlatServe;
    if Gap(l) {
      forall reqs | ValidRequests(reqs) ensures Serve(l, s, reqs).replies == FlatServe(l, m, reqs).replies {
        ServeIsFlatServe(l, s, m, reqs);
      }
    } else {
      InvLayout(l, s);
      AbuttingHandler(l, s);
      AbuttingFlat(l, s, m);
      assert ValidRequests(AbuttingReads(l));
    }
  }

  // ---- One such layout ------------------------------------------------------

  /** Pages `[start, border)` of zeroed code and one data page right behind. With
      `start` at 4 MiB and `border` at 256 MiB these are the regions of a program
      with the largest permitted code. */
  function AbuttingLayout(start: nat, border: nat): Layout
    requires start < border
  {
    var n := border - start;
    Layout(Zeros(4096 * n), start, border, 0, border, border + 1, [Range(border, border + 1, EphemeralZero)], [n])
  }

  function ZeroFrames(n: nat): (phys: map<nat, seq<byte>>)
    ensures forall f: nat :: f in phys <==> f <= n
    ensures forall f <- phys :: phys[f] == Zeros(4096)
  {
    (if n == 0 then map[] else ZeroFrames(n - 1))[n := Zeros(4096)]
  }

  function AbuttingState(n: nat): State {
    State(map[], ZeroFrames(n), [None], [NotPresent], {}, 0, n + 1)
  }

  function AbuttingMem(start: nat, border: nat): Mem {
    Mem(4096 * border, Zeros(4096), [ReadWrite], [NotPresent], 4096 * start, 4096 * border)
  }

  lemma AbuttingLayoutOk(start: nat, border: nat)
    requires start < border < 0xF_FFFF
    ensures LayoutOk(AbuttingLayout(start, border))
  {
    var l := AbuttingLayout(start, border);
    assert RoundUp(4096 * (border - start)) == 4096 * (border - start);
    assert RangesOk(l) by {
      forall p | InData(l, p) ensures RangeFor(l.ranges, p).Some? {
        assert p == border;
      }
    }
  }

  lemma AbuttingAgrees(start: nat, border: nat)
    requires start < border < 0xF_FFFF
    ensures Agree(AbuttingLayout(start, border), AbuttingState(border - start), AbuttingMem(start, border))
  {
    hide LayoutOk;
    AbuttingLayoutOk(start, border);
  }

  /** It starts in agreement with the flat memory and loses it: the second of two
      reads is served by the handler and refused by the flat memory. */
  lemma AbuttingExample(start: nat, border: nat)
    requires start < border < 0xF_FFFF
    ensures
      var l, s, m := AbuttingLayout(start, border), AbuttingState(border - start), AbuttingMem(start, border);
      && Agree(l, s, m) && !Gap(l)
      && Serve(l, s, AbuttingReads(l)).replies[1].Got? && FlatServe(l, m, AbuttingReads(l)).replies[1].PageFault?
  {
    hide Serve, FlatServe;
    var l, s, m := AbuttingLayout(start, border), AbuttingState(border - start), AbuttingMem(start, border);
    AbuttingLayoutOk(start, border);
    AbuttingAgrees(start, border);
    AbuttingHandler(l, s);
    AbuttingFlat(l, s, m);
  }
}
