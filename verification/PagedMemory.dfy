/** Demand-paged copy-on-write memory: the #PF handler of nub-arch-x86
    `jit_run.rs` over the frame memory of nub-flat-guest-x86 `mem.rs`, as
    functions on a `State` value, and the invariant every handler step keeps.
    `FaultHandler` runs the same steps in place on a four-level page table. */
module PagedMemory {
  import opened Prelude
  import opened Mat
  import opened FlatMemory

  /** One materialization range, in page numbers. */
  datatype Range = Range(start: nat, end: nat, kind: PageKind)

  /** What a frame publishes to the handler and never changes: region bounds in
      page numbers, the frames holding the code and the shared data pages. */
  datatype Layout = Layout(
    code: seq<byte>,
    codeStart: nat,
    codeEnd: nat,
    codeFrame: nat,
    dataStart: nat,
    dataEnd: nat,
    ranges: seq<Range>,
    backing: seq<nat>)

  datatype Leaf = Leaf(frame: nat, w: bool)

  /** `leaves` is the guest part of the page table, `phys` the contents of
      physical pages, `overlay` the frame's private pages, `mat` and `roUnits`
      the materialization bookkeeping, `gas` the saved gas register. */
  datatype State = State(
    leaves: map<nat, Leaf>,
    phys: map<nat, seq<byte>>,
    overlay: seq<Option<nat>>,
    mat: seq<PageState>,
    roUnits: set<nat>,
    gas: int,
    nextFrame: nat)

  predicate InCode(l: Layout, p: nat) {
    l.codeEnd > l.codeStart && l.codeStart <= p < l.codeEnd
  }

  predicate InData(l: Layout, p: nat) {
    l.dataEnd > l.dataStart && l.dataStart <= p < l.dataEnd
  }

  /** First range covering `p` (`mat_range_for_in`). */
  function RangeFor(ranges: seq<Range>, p: nat): (r: Option<Range>)
    ensures r.Some? ==> r.value in ranges && r.value.start <= p < r.value.end
    ensures r.None? ==> forall g :: g in ranges ==> !(g.start <= p < g.end)
  {
    if ranges == [] then None
    else if ranges[0].start <= p < ranges[0].end then Some(ranges[0])
    else RangeFor(ranges[1..], p)
  }

  /** It is the first one: no range before it covers the page. */
  lemma {:induction false} RangeForFirst(ranges: seq<Range>, p: nat) returns (k: nat)
    requires RangeFor(ranges, p).Some?
    ensures k < |ranges| && RangeFor(ranges, p).value == ranges[k]
    ensures forall j :: 0 <= j < k ==> !(ranges[j].start <= p < ranges[j].end)
  {
    if ranges[0].start <= p < ranges[0].end {
      k := 0;
    } else {
      k := RangeForFirst(ranges[1..], p);
      k := k + 1;
    }
  }

  function KindOf(l: Layout, p: nat): PageKind {
    match RangeFor(l.ranges, p)
    case Some(g) => g.kind
    case None => EphemeralZero
  }

  predicate Pinned(l: Layout, p: nat) {
    KindOf(l, p) == PinnedCapRo
  }

  predicate IsRo(l: Layout, p: nat) {
    InCode(l, p) || (InData(l, p) && Pinned(l, p))
  }

  /** Bounds of the read-only cap holding page `p`. */
  function Cap(l: Layout, p: nat): (r: Range)
    requires IsRo(l, p)
    ensures r.start <= p < r.end
  {
    if InCode(l, p) then Range(l.codeStart, l.codeEnd, PinnedCapRo)
    else RangeFor(l.ranges, p).value
  }

  function Unit(l: Layout, p: nat): nat
    requires IsRo(l, p)
  {
    UnitBase(p, Cap(l, p).start)
  }

  // ---- Assumptions on the layout ----------------------------------------

  predicate IsCodeFrame(l: Layout, f: nat) {
    l.codeFrame <= f < l.codeFrame + (l.codeEnd - l.codeStart)
  }

  ghost predicate RangesOk(l: Layout) {
    // every data page is covered
    && (forall p :: InData(l, p) ==> RangeFor(l.ranges, p).Some?)
    // pinned caps lie in the data extent and are pairwise disjoint
    && (forall g :: g in l.ranges && g.kind == PinnedCapRo ==> l.dataStart <= g.start && g.end <= l.dataEnd)
    && (forall g, h :: g in l.ranges && h in l.ranges && g.kind == PinnedCapRo && h.kind == PinnedCapRo && g != h
                       ==> g.end <= h.start || h.end <= g.start)
    // the catch-all range is listed after the pinned ones
    && (forall p, g :: g in l.ranges && g.kind == PinnedCapRo && g.start <= p < g.end ==> Pinned(l, p))
  }

  ghost predicate LayoutOk(l: Layout) {
    && |l.code| > 0
    && 4096 * (l.codeEnd - l.codeStart) == RoundUp(|l.code|)
    && l.codeStart < l.codeEnd <= l.dataStart <= l.dataEnd < 0x10_0000
    && |l.backing| == l.dataEnd - l.dataStart
    && (forall i, j :: 0 <= i < j < |l.backing| ==> l.backing[i] != l.backing[j])
    && (forall i :: 0 <= i < |l.backing| ==> !IsCodeFrame(l, l.backing[i]))
    && RangesOk(l)
  }

  /** At least one undeclared page separates code from data. */
  predicate Gap(l: Layout) {
    l.codeEnd < l.dataStart
  }

  // ---- The handler ------------------------------------------------------

  /** Frame holding the effective bytes of data page `i`: the frame's own copy
      if it wrote one, else the shared backing (`page_source`). */
  function Source(l: Layout, overlay: seq<Option<nat>>, i: nat): nat
    requires i < |overlay| == |l.backing|
  {
    if overlay[i].Some? then overlay[i].value else l.backing[i]
  }

  predicate Sized(l: Layout, s: State) {
    |s.overlay| == |l.backing| == |s.mat|
  }

  /** Frame a read-only page maps. */
  function RoFrame(l: Layout, overlay: seq<Option<nat>>, p: nat): nat
    requires LayoutOk(l) && |overlay| == |l.backing| && IsRo(l, p)
  {
    if InCode(l, p) then l.codeFrame + (p - l.codeStart) else Source(l, overlay, p - l.dataStart)
  }

  /** First page and end of the unit of `p`. */
  function UnitLo(l: Layout, p: nat): nat
    requires IsRo(l, p)
  {
    Max(Cap(l, p).start, p / 512 * 512)
  }

  function UnitHi(l: Layout, p: nat): nat
    requires IsRo(l, p)
  {
    Min(Cap(l, p).end, p / 512 * 512 + 512)
  }

  /** Read-only leaves of the pages in `[lo, hi)`. */
  function RoLeaves(l: Layout, overlay: seq<Option<nat>>, lo: nat, hi: nat): map<nat, Leaf>
    requires LayoutOk(l) && |overlay| == |l.backing|
  {
    map q | lo <= q < hi && IsRo(l, q) :: Leaf(RoFrame(l, overlay, q), false)
  }

  /** Fault-around of the read-only unit holding `p` (`materialize_ro_unit`). */
  function MapUnit(l: Layout, s: State, p: nat): State
    requires LayoutOk(l) && Sized(l, s) && IsRo(l, p)
  {
    if Unit(l, p) in s.roUnits then s
    else
      s.(roUnits := s.roUnits + {Unit(l, p)},
         leaves := s.leaves + RoLeaves(l, s.overlay, UnitLo(l, p), UnitHi(l, p)))
  }

  /** Copy a page into a fresh private frame, map it writable and commit it to
      the overlay (`cow_into_fresh`). */
  function Cow(l: Layout, s: State, p: nat): State
    requires LayoutOk(l) && Sized(l, s) && InData(l, p)
    requires Source(l, s.overlay, p - l.dataStart) in s.phys
  {
    var i := p - l.dataStart;
    var f := s.nextFrame;
    s.(phys := s.phys[f := s.phys[Source(l, s.overlay, i)]],
       leaves := s.leaves[p := Leaf(f, true)],
       overlay := s.overlay[i := Some(f)],
       nextFrame := f + 1)
  }

  /** Make one writable-kind data page present for the access. */
  function MapData(l: Layout, s: State, p: nat, isWrite: bool): State
    requires LayoutOk(l) && Sized(l, s) && InData(l, p) && !Pinned(l, p)
    requires Source(l, s.overlay, p - l.dataStart) in s.phys
  {
    var i := p - l.dataStart;
    var cur := s.mat[i];
    var c := ChargeFor(cur, KindOf(l, p), isWrite).value;
    var mapped :=
      if c.state == PresentRo && cur == NotPresent then
        s.(leaves := s.leaves[p := Leaf(Source(l, s.overlay, i), false)])
      else if c.state == PresentRw && cur != PresentRw then
        if s.overlay[i].Some? && p in s.leaves then
          s.(leaves := s.leaves[p := s.leaves[p].(w := true)])
        else
          Cow(l, s, p)
      else s;
    mapped.(mat := mapped.mat[i := c.state], gas := mapped.gas - c.gas)
  }

  predicate Materializable(l: Layout, base: nat, p: nat, isWrite: bool) {
    if InCode(l, base) then !isWrite && InCode(l, p)
    else InData(l, base) && InData(l, p) && !(isWrite && Pinned(l, p))
  }

  // ---- Invariant --------------------------------------------------------

  ghost predicate CodeFramesOk(l: Layout, phys: map<nat, seq<byte>>) {
    forall p: nat :: InCode(l, p) ==>
      var f := l.codeFrame + (p - l.codeStart);
      f in phys && |phys[f]| == 4096
      && forall k :: 0 <= k < 4096 ==>
           var o := 4096 * (p - l.codeStart) + k;
           phys[f][k] == if o < |l.code| then l.code[o] else 0
  }

  /** Frames are in use by one page at most, and none is handed out twice. */
  ghost predicate FramesOk(l: Layout, phys: map<nat, seq<byte>>, overlay: seq<Option<nat>>, nextFrame: nat)
    requires |overlay| == |l.backing|
  {
    && l.codeStart <= l.codeEnd
    && l.codeFrame + (l.codeEnd - l.codeStart) <= nextFrame
    && (forall i :: 0 <= i < |overlay| ==>
          && Source(l, overlay, i) in phys && |phys[Source(l, overlay, i)]| == 4096
          && Source(l, overlay, i) < nextFrame && !IsCodeFrame(l, Source(l, overlay, i)))
    && (forall i, j :: 0 <= i < |overlay| && 0 <= j < |overlay| && i != j ==>
          Source(l, overlay, i) != Source(l, overlay, j))
    && (forall i, j :: 0 <= i < |overlay| && overlay[i].Some? && 0 <= j < |l.backing| ==>
          overlay[i].value != l.backing[j])
    && (forall i :: 0 <= i < |l.backing| ==> l.backing[i] < nextFrame)
  }

  /** What a present leaf may say. */
  ghost predicate LeafOk(l: Layout, overlay: seq<Option<nat>>, mat: seq<PageState>, p: nat, leaf: Leaf)
    requires |overlay| == |l.backing| == |mat| == l.dataEnd - l.dataStart
  {
    if InCode(l, p) then leaf == Leaf(l.codeFrame + (p - l.codeStart), false)
    else
      && InData(l, p)
      && leaf.frame == Source(l, overlay, p - l.dataStart)
      && (leaf.w ==> overlay[p - l.dataStart].Some? && mat[p - l.dataStart] == PresentRw)
  }

  ghost predicate LeavesOk(l: Layout, leaves: map<nat, Leaf>, overlay: seq<Option<nat>>, mat: seq<PageState>)
    requires |overlay| == |l.backing| == |mat| == l.dataEnd - l.dataStart
  {
    forall p :: p in leaves ==> LeafOk(l, overlay, mat, p, leaves[p])
  }

  /** Bookkeeping of data page `p` against its leaf. */
  ghost predicate MatOk(l: Layout, leaves: map<nat, Leaf>, own: Option<nat>, st: PageState, p: nat) {
    if Pinned(l, p) then st != PresentRw && own.None?
    else
      && (st == PresentRw ==> p in leaves && leaves[p].w)
      && (st == PresentRo ==> p in leaves)
  }

  ghost predicate MatsOk(l: Layout, leaves: map<nat, Leaf>, overlay: seq<Option<nat>>, mat: seq<PageState>)
    requires |overlay| == |mat| == l.dataEnd - l.dataStart
  {
    forall p: nat :: InData(l, p) ==> MatOk(l, leaves, overlay[p - l.dataStart], mat[p - l.dataStart], p)
  }

  ghost predicate UnitsOk(l: Layout, leaves: map<nat, Leaf>, roUnits: set<nat>) {
    forall p :: IsRo(l, p) && Unit(l, p) in roUnits ==> p in leaves
  }

  ghost predicate Inv(l: Layout, s: State) {
    && LayoutOk(l)
    && Sized(l, s)
    && FramesOk(l, s.phys, s.overlay, s.nextFrame)
    && CodeFramesOk(l, s.phys)
    && LeavesOk(l, s.leaves, s.overlay, s.mat)
    && MatsOk(l, s.leaves, s.overlay, s.mat)
    && UnitsOk(l, s.leaves, s.roUnits)
  }

  // ---- Units ------------------------------------------------------------

  /** The fault-around window of `p` holds read-only pages of its cap only. */
  lemma UnitWindow(l: Layout, p: nat, q: nat)
    requires LayoutOk(l) && IsRo(l, p) && UnitLo(l, p) <= q < UnitHi(l, p)
    ensures IsRo(l, q) && Cap(l, q) == Cap(l, p) && Unit(l, q) == Unit(l, p)
  {
    if InCode(l, p) {
    } else {
      var g := RangeFor(l.ranges, p).value;
      assert g in l.ranges && g.start <= q < g.end;
      assert Pinned(l, q);
      var h := RangeFor(l.ranges, q).value;
    }
  }

  /** Conversely, every page of the unit lies in the window. */
  lemma UnitMembers(l: Layout, p: nat, q: nat)
    requires LayoutOk(l) && IsRo(l, p) && IsRo(l, q) && Unit(l, q) == Unit(l, p)
    ensures UnitLo(l, p) <= q < UnitHi(l, p)
  {
    var c, d := Cap(l, p), Cap(l, q);
    assert c == d || c.end <= d.start || d.end <= c.start;
    UnitIdentifiesCapAndCluster(p, c.start, c.end, q, d.start, d.end);
  }

  // ---- One page at a time -----------------------------------------------

  predicate Permits(leaves: map<nat, Leaf>, p: nat, isWrite: bool) {
    p in leaves && (isWrite ==> leaves[p].w)
  }

  ghost predicate KeepsPermits(before: map<nat, Leaf>, after: map<nat, Leaf>) {
    forall q, isWrite :: Permits(before, q, isWrite) ==> Permits(after, q, isWrite)
  }

  lemma RoLeafNotWritable(l: Layout, s: State, q: nat)
    requires Inv(l, s) && IsRo(l, q) && q in s.leaves
    ensures !s.leaves[q].w
  {
    hide RangesOk, RangeFor;
    if !InCode(l, q) {
      assert MatOk(l, s.leaves, s.overlay[q - l.dataStart], s.mat[q - l.dataStart], q);
    }
  }

  /** Fault-around, also part of one, only adds pages or rewrites read-only
      leaves. */
  lemma AddRoLeaves(l: Layout, s: State, lo: nat, hi: nat)
    requires Inv(l, s)
    ensures
      var leaves := s.leaves + RoLeaves(l, s.overlay, lo, hi);
      LeavesOk(l, leaves, s.overlay, s.mat) && KeepsPermits(s.leaves, leaves)
  {
    hide RangesOk, RangeFor, MatsOk, UnitsOk, FramesOk, CodeFramesOk;
    var leaves := s.leaves + RoLeaves(l, s.overlay, lo, hi);
    forall q | q in leaves ensures LeafOk(l, s.overlay, s.mat, q, leaves[q]) {
      if q in s.leaves && leaves[q] == s.leaves[q] {
      } else {
        assert IsRo(l, q) && leaves[q] == Leaf(RoFrame(l, s.overlay, q), false);
      }
    }
    forall q, isWrite | Permits(s.leaves, q, isWrite) ensures Permits(leaves, q, isWrite) {
      if leaves[q] != s.leaves[q] {
        RoLeafNotWritable(l, s, q);
      }
    }
  }

  lemma MapUnitLeaves(l: Layout, s: State, p: nat)
    requires Inv(l, s) && IsRo(l, p)
    ensures
      var leaves := MapUnit(l, s, p).leaves;
      LeavesOk(l, leaves, s.overlay, s.mat) && KeepsPermits(s.leaves, leaves)
  {
    hide RangesOk, RangeFor, FramesOk, CodeFramesOk, LeavesOk, UnitsOk, MatsOk, IsRo, Unit, UnitLo, UnitHi, RoLeaves;
    AddRoLeaves(l, s, UnitLo(l, p), UnitHi(l, p));
  }

  /** After the fault-around the whole unit is mapped. */
  lemma MapUnitUnits(l: Layout, s: State, p: nat)
    requires LayoutOk(l) && Sized(l, s) && UnitsOk(l, s.leaves, s.roUnits) && IsRo(l, p)
    ensures
      var s' := MapUnit(l, s, p);
      p in s'.leaves && UnitsOk(l, s'.leaves, s'.roUnits)
  {
    hide RangesOk, RangeFor;
    var s' := MapUnit(l, s, p);
    assert UnitLo(l, p) <= p < UnitHi(l, p);
    forall q | IsRo(l, q) && Unit(l, q) in s'.roUnits ensures q in s'.leaves {
      if Unit(l, q) !in s.roUnits {
        UnitMembers(l, p, q);
      }
    }
  }

  lemma MoreLeavesKeepMats(l: Layout, before: map<nat, Leaf>, after: map<nat, Leaf>, overlay: seq<Option<nat>>, mat: seq<PageState>)
    requires |overlay| == |mat| == l.dataEnd - l.dataStart
    requires MatsOk(l, before, overlay, mat) && KeepsPermits(before, after)
    ensures MatsOk(l, after, overlay, mat)
  {
    hide Pinned;
    forall p: nat | InData(l, p) ensures MatOk(l, after, overlay[p - l.dataStart], mat[p - l.dataStart], p) {
      assert Permits(before, p, true) ==> Permits(after, p, true);
      assert Permits(before, p, false) ==> Permits(after, p, false);
    }
  }

  lemma MapUnitKeepsInv(l: Layout, s: State, p: nat)
    requires Inv(l, s) && IsRo(l, p)
    ensures Inv(l, MapUnit(l, s, p))
    ensures Permits(MapUnit(l, s, p).leaves, p, false)
    ensures KeepsPermits(s.leaves, MapUnit(l, s, p).leaves)
  {
    hide RangesOk, FramesOk, CodeFramesOk, LeavesOk, UnitsOk, MatsOk, RangeFor, IsRo, Unit, KeepsPermits;
    MapUnitLeaves(l, s, p);
    MapUnitUnits(l, s, p);
    MoreLeavesKeepMats(l, s.leaves, MapUnit(l, s, p).leaves, s.overlay, s.mat);
  }

  /** Rewriting the leaf, the private frame and the state of one writable-kind
      page keeps the mapping invariants when the three agree at that page. */
  lemma SetDataPage(l: Layout, s: State, p: nat, leaf: Leaf, own: Option<nat>, st: PageState)
    requires InData(l, p) && !Pinned(l, p) && Sized(l, s) && |l.backing| == l.dataEnd - l.dataStart
    requires LeavesOk(l, s.leaves, s.overlay, s.mat) && MatsOk(l, s.leaves, s.overlay, s.mat) && !InCode(l, p)
    requires
      var i := p - l.dataStart;
      && leaf.frame == Source(l, s.overlay[i := own], i)
      && (leaf.w <==> st == PresentRw)
      && (leaf.w ==> own.Some?)
    ensures
      var i := p - l.dataStart;
      var leaves := s.leaves[p := leaf];
      && LeavesOk(l, leaves, s.overlay[i := own], s.mat[i := st])
      && MatsOk(l, leaves, s.overlay[i := own], s.mat[i := st])
  {
    hide Pinned;
    var i := p - l.dataStart;
    var leaves, overlay, mat := s.leaves[p := leaf], s.overlay[i := own], s.mat[i := st];
    assert LeavesOk(l, leaves, overlay, mat) by {
      hide MatsOk;
      forall q | q in leaves ensures LeafOk(l, overlay, mat, q, leaves[q]) {
        if q != p {
          assert LeafOk(l, s.overlay, s.mat, q, s.leaves[q]);
        }
      }
    }
    assert MatsOk(l, leaves, overlay, mat) by {
      hide LeavesOk;
      forall q: nat | InData(l, q) ensures MatOk(l, leaves, overlay[q - l.dataStart], mat[q - l.dataStart], q) {
        if q != p {
          assert MatOk(l, s.leaves, s.overlay[q - l.dataStart], s.mat[q - l.dataStart], q);
        }
      }
    }
  }

  /** The frame handed out by a copy-on-write is in no other use. */
  lemma CowKeepsFrames(l: Layout, s: State, p: nat)
    requires Inv(l, s) && InData(l, p)
    ensures
      var s' := Cow(l, s, p);
      FramesOk(l, s'.phys, s'.overlay, s'.nextFrame) && CodeFramesOk(l, s'.phys)
  {
    var s' := Cow(l, s, p);
    var i := p - l.dataStart;
    assert forall j :: 0 <= j < |s.overlay| && j != i ==> Source(l, s'.overlay, j) == Source(l, s.overlay, j);
    forall q: nat | InCode(l, q) ensures s'.phys[l.codeFrame + (q - l.codeStart)] == s.phys[l.codeFrame + (q - l.codeStart)] {
    }
  }

  lemma SourcePresent(l: Layout, s: State, p: nat)
    requires Inv(l, s) && InData(l, p)
    ensures !InCode(l, p) && Source(l, s.overlay, p - l.dataStart) in s.phys
    ensures Source(l, s.overlay, p - l.dataStart) < s.nextFrame
  {
    hide RangesOk;
  }

  lemma DataPageFacts(l: Layout, s: State, p: nat)
    requires Inv(l, s) && InData(l, p) && !Pinned(l, p)
    ensures
      var i := p - l.dataStart;
      && (s.mat[i] == PresentRw <==> p in s.leaves && s.leaves[p].w)
      && (s.mat[i] == PresentRo ==> p in s.leaves)
      && (p in s.leaves ==> s.leaves[p].frame == Source(l, s.overlay, i) && (s.leaves[p].w ==> s.overlay[i].Some?))
  {
    hide RangesOk, RangeFor, FramesOk, CodeFramesOk, UnitsOk;
    assert MatOk(l, s.leaves, s.overlay[p - l.dataStart], s.mat[p - l.dataStart], p);
    assert p in s.leaves ==> LeafOk(l, s.overlay, s.mat, p, s.leaves[p]);
  }

  lemma MapDataKeepsInv(l: Layout, s: State, p: nat, isWrite: bool)
    requires Inv(l, s) && InData(l, p) && !Pinned(l, p)
    ensures
      var s' := MapData(l, s, p, isWrite);
      && Inv(l, s')
      && Permits(s'.leaves, p, isWrite)
      && KeepsPermits(s.leaves, s'.leaves)
      && (forall f :: f in s.phys && f < s.nextFrame ==> f in s'.phys && s'.phys[f] == s.phys[f])
  {
    hide RangesOk, RangeFor, FramesOk, CodeFramesOk, LeavesOk, MatsOk;
    SourcePresent(l, s, p);
    DataPageFacts(l, s, p);
    var s' := MapData(l, s, p, isWrite);
    var i := p - l.dataStart;
    assert s'.leaves == s.leaves[p := s'.leaves[p]];
    assert s'.overlay == s.overlay[i := s'.overlay[i]];
    SetDataPage(l, s, p, s'.leaves[p], s'.overlay[i], s'.mat[i]);
    if s'.overlay != s.overlay {
      CowKeepsFrames(l, s, p);
    }
  }

  lemma InvLayout(l: Layout, s: State)
    requires Inv(l, s)
    ensures LayoutOk(l) && Sized(l, s)
  {
  }

  // ---- Resolving a fault ------------------------------------------------

  function MapPage(l: Layout, s: State, p: nat, isWrite: bool): State
    requires Inv(l, s) && (InCode(l, p) || InData(l, p)) && !(isWrite && IsRo(l, p))
  {
    if IsRo(l, p) then MapUnit(l, s, p) else MapData(l, s, p, isWrite)
  }

  lemma MapPageKeepsInv(l: Layout, s: State, p: nat, isWrite: bool)
    requires Inv(l, s) && (InCode(l, p) || InData(l, p)) && !(isWrite && IsRo(l, p))
    ensures Inv(l, MapPage(l, s, p, isWrite))
  {
    if IsRo(l, p) {
      MapUnitKeepsInv(l, s, p);
    } else {
      MapDataKeepsInv(l, s, p, isWrite);
    }
  }

  /** Make the page set of a faulting access present; `None` leaves everything
      as it was and becomes a guest page fault (`try_materialize`). */
  function Materialize(l: Layout, s: State, gva: u32, width: nat, isWrite: bool): Option<State>
    requires Inv(l, s) && 1 <= width <= 8
  {
    var pages := AccessPages(gva, width);
    if exists k :: 0 <= k < |pages| && !Materializable(l, pages[0], pages[k], isWrite) then None
    else
      var s1 := MapPage(l, s, pages[0], isWrite);
      if |pages| == 1 then Some(s1)
      else
        MapPageKeepsInv(l, s, pages[0], isWrite);
        Some(MapPage(l, s1, pages[1], isWrite))
  }
}
