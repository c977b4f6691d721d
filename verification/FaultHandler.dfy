/** The #PF handler run in place (nub-arch-x86 `jit_run.rs`): it updates the page
    state, the unit set, the overlay, the gas register and a four-level page
    table. Each method is proved against its function in `PagedMemory`, so the
    agreement with the flat memory carries over to it. Tables and private pages
    can run out; then a resolution is abandoned. */
module FaultHandler {
  import opened Prelude
  import opened Mat
  import opened PagedMemory
  import opened DemandPaging
  import opened TableReuse
  import PT = PageTables

  const USER_RO := PT.Perm(false, true, false, false)
  const USER_RW := PT.Perm(true, true, false, false)

  /** Frame numbers fit the 40 address bits of a page-table entry. */
  const FRAMES: nat := 0x100_0000_0000

  /** The guest mapping a page table realizes. */
  ghost function LeavesOf(at: map<nat, PT.Table>, root: nat): map<nat, Leaf> {
    map p: nat | p < PT.GUEST_PAGES && PT.Walk(at, root, p).Some? ::
      Leaf(PT.Walk(at, root, p).value.frame, PT.Walk(at, root, p).value.writable)
  }

  lemma MapLeafLeaves(before: map<nat, PT.Table>, after: map<nat, PT.Table>, root: nat, p: nat, frame: nat, perm: PT.Perm)
    requires p < PT.GUEST_PAGES && frame < FRAMES
    requires PT.OnlyWalk(before, after, root, p, Some(PT.ViewOf(frame, perm)))
    ensures LeavesOf(after, root) == LeavesOf(before, root)[p := Leaf(frame, perm.writable)]
  {
    hide PT.Walk;
  }

  lemma SameLeaves(before: map<nat, PT.Table>, after: map<nat, PT.Table>, root: nat)
    requires PT.SameWalks(before, after, root)
    ensures LeavesOf(after, root) == LeavesOf(before, root)
  {
    hide PT.Walk;
  }

  lemma SetLeafWLeaves(before: map<nat, PT.Table>, after: map<nat, PT.Table>, root: nat, p: nat, w: bool)
    requires p < PT.GUEST_PAGES && PT.Walk(before, root, p).Some?
    requires PT.OnlyWalk(before, after, root, p, Some(PT.Walk(before, root, p).value.(writable := w)))
    ensures p in LeavesOf(before, root)
    ensures LeavesOf(after, root) == LeavesOf(before, root)[p := LeavesOf(before, root)[p].(w := w)]
  {
    hide PT.Walk;
  }

  // ---- Abandoned resolutions ------------------------------------------------

  /** Without the set of mapped units, which an abandoned fault-around leaves
      ahead of the mapping. A new CALL clears it. */
  function NoUnits(s: State): State {
    s.(roUnits := {})
  }

  /** What a resolution that ran out of memory half way leaves of `s`: no gas
      debited, no permission taken away, no byte changed, and the invariant but
      for the unit set. */
  ghost predicate Abandoned(l: Layout, s: State, s': State)
    requires Inv(l, s)
  {
    && s'.gas == s.gas
    && KeepsPermits(s.leaves, s'.leaves)
    && Inv(l, NoUnits(s')) && Effective(l, NoUnits(s')) == Effective(l, s)
  }

  lemma AbandonedUnit(l: Layout, s: State, u: nat, lo: nat, hi: nat)
    requires Inv(l, s)
    ensures
      var s' := s.(roUnits := s.roUnits + {u}, leaves := s.leaves + RoLeaves(l, s.overlay, lo, hi));
      Abandoned(l, s, s')
  {
    hide RangesOk, RangeFor, FramesOk, CodeFramesOk, LeavesOk, MatsOk, KeepsPermits, IsRo, RoLeaves;
    AddRoLeaves(l, s, lo, hi);
    MoreLeavesKeepMats(l, s.leaves, s.leaves + RoLeaves(l, s.overlay, lo, hi), s.overlay, s.mat);
  }

  lemma AbandonedAtOnce(l: Layout, s: State)
    requires Inv(l, s)
    ensures Abandoned(l, s, s)
  {
    hide RangesOk, RangeFor, FramesOk, CodeFramesOk, LeavesOk, MatsOk, IsRo;
  }

  /** The state between the two pages of a straddle: the first page done, the gas
      not yet debited. */
  ghost function Between(l: Layout, s: State, p: nat, isWrite: bool): State
    requires Inv(l, s) && (InCode(l, p) || InData(l, p)) && !(isWrite && IsRo(l, p))
  {
    MapPage(l, s, p, isWrite).(gas := s.gas)
  }

  lemma InvAnyGas(l: Layout, s: State, gas: int)
    requires Inv(l, s)
    ensures Inv(l, s.(gas := gas)) && Effective(l, s.(gas := gas)) == Effective(l, s)
  {
    hide RangesOk, RangeFor, FramesOk, CodeFramesOk, LeavesOk, MatsOk, UnitsOk;
  }

  lemma IsRoData(l: Layout, p: nat)
    requires !IsRo(l, p) && (InCode(l, p) || InData(l, p))
    ensures InData(l, p) && !Pinned(l, p)
  {
  }

  lemma SameEffective(l: Layout, s: State, s': State)
    requires Inv(l, s) && Inv(l, s') && s'.phys == s.phys && s'.overlay == s.overlay
    ensures Effective(l, s') == Effective(l, s)
  {
    hide Inv;
    InvLayout(l, s);
  }

  lemma MapPageKeepsEffective(l: Layout, s: State, p: nat, isWrite: bool)
    requires Inv(l, s) && (InCode(l, p) || InData(l, p)) && !(isWrite && IsRo(l, p))
    ensures
      var s' := MapPage(l, s, p, isWrite);
      Inv(l, s') && KeepsPermits(s.leaves, s'.leaves) && Effective(l, s') == Effective(l, s)
  {
    hide Inv, RangeFor, SameBytes, MapData, KeepsPermits, IsRo, Effective, LayoutOk;
    InvLayout(l, s);
    if IsRo(l, p) {
      MapUnitKeepsInv(l, s, p);
      SameEffective(l, s, MapUnit(l, s, p));
    } else {
      IsRoData(l, p);
      SourcePresent(l, s, p);
      MapDataKeepsInv(l, s, p, isWrite);
      MapDataKeepsBytes(l, s, p, isWrite, Effective(l, s));
      EffectiveUnique(l, MapData(l, s, p, isWrite), Effective(l, s));
    }
  }

  /** Abandoning on the second page after the first one was done. */
  lemma AbandonedSecond(l: Layout, s: State, p: nat, isWrite: bool, s': State)
    requires Inv(l, s) && (InCode(l, p) || InData(l, p)) && !(isWrite && IsRo(l, p))
    requires Inv(l, Between(l, s, p, isWrite)) && Abandoned(l, Between(l, s, p, isWrite), s')
    ensures Abandoned(l, s, s')
  {
    hide Inv, RangeFor, MapPage, Effective, IsRo;
    MapPageKeepsEffective(l, s, p, isWrite);
    InvAnyGas(l, MapPage(l, s, p, isWrite), s.gas);
  }

  /** What a page step does and costs does not depend on the gas. */
  lemma MapPageAnyGas(l: Layout, s: State, gas: int, p: nat, isWrite: bool)
    requires Inv(l, s) && Inv(l, s.(gas := gas)) && (InCode(l, p) || InData(l, p)) && !(isWrite && IsRo(l, p))
    ensures
      var a, b := MapPage(l, s, p, isWrite), MapPage(l, s.(gas := gas), p, isWrite);
      b == a.(gas := gas + a.gas - s.gas)
  {
    hide RangesOk, RangeFor, FramesOk, CodeFramesOk, LeavesOk, MatsOk, UnitsOk;
  }

  // ---- The handler in place ------------------------------------------------

  lemma NoWalk(root: nat, p: nat)
    requires p < PT.GUEST_PAGES
    ensures PT.Walk(map[], root, p).None?
  {
    PT.NoGuestSlot(map[], root, p, 1);
  }

  /** A table without guest mappings realizes the empty mapping. */
  lemma NoLeaves(at: map<nat, PT.Table>, root: nat)
    requires PT.SameWalks(at, map[], root)
    ensures LeavesOf(at, root) == map[]
  {
    hide PT.Walk, PT.Path;
    forall p: nat | p < PT.GUEST_PAGES ensures PT.Walk(at, root, p).None? {
      NoWalk(root, p);
    }
  }

  /** Nothing mapped, nothing written. */
  lemma EmptyInv(l: Layout, phys: map<nat, seq<byte>>, nextFrame: nat, gas: int)
    requires LayoutOk(l) && CodeFramesOk(l, phys) && FramesOk(l, phys, seq(|l.backing|, _ => None), nextFrame)
    ensures Inv(l, State(map[], phys, seq(|l.backing|, _ => None), seq(|l.backing|, _ => NotPresent), {}, gas, nextFrame))
  {
    hide RangesOk, RangeFor, FramesOk, CodeFramesOk, IsRo, Pinned;
  }

  lemma UnitIsFree(l: Layout, s: State, p: nat)
    requires LayoutOk(l) && Sized(l, s) && IsRo(l, p)
    ensures MapUnit(l, s, p).gas == s.gas && MapUnit(l, s, p).nextFrame == s.nextFrame
  {
  }

  lemma WindowStep(l: Layout, overlay: seq<Option<nat>>, leaves: map<nat, Leaf>, lo: nat, q: nat)
    requires LayoutOk(l) && |overlay| == |l.backing| && lo <= q && IsRo(l, q)
    ensures leaves + RoLeaves(l, overlay, lo, q + 1) == (leaves + RoLeaves(l, overlay, lo, q))[q := Leaf(RoFrame(l, overlay, q), false)]
  {
    hide RangesOk, RangeFor, IsRo;
  }

  lemma RoFrameBound(l: Layout, s: State, q: nat)
    requires Inv(l, s) && IsRo(l, q)
    ensures q < 0x10_0000 && RoFrame(l, s.overlay, q) < s.nextFrame
  {
    hide RangesOk, RangeFor;
  }

  lemma SourceBound(l: Layout, s: State, p: nat)
    requires Inv(l, s) && InData(l, p)
    ensures p < 0x10_0000 && 0 <= p - l.dataStart < |l.backing| && Source(l, s.overlay, p - l.dataStart) < s.nextFrame
  {
    hide RangesOk, RangeFor;
  }

  lemma LeavesDomain(at: map<nat, PT.Table>, root: nat, p: nat)
    requires p < PT.GUEST_PAGES
    ensures p in LeavesOf(at, root) <==> PT.Walk(at, root, p).Some?
  {
    hide PT.Walk;
  }

  /** The re-arm applied to the data pages below `bound`. */
  ghost function RearmBelow(l: Layout, s: State, bound: nat): map<nat, Leaf>
    requires Inv(l, s)
  {
    map p | p in s.leaves ::
      if InData(l, p) && p < bound && s.overlay[p - l.dataStart].Some? then s.leaves[p].(w := false) else s.leaves[p]
  }

  lemma RearmNone(l: Layout, s: State)
    requires Inv(l, s)
    ensures RearmBelow(l, s, l.dataStart) == s.leaves
  {
    hide FramesOk, CodeFramesOk, LeavesOk, UnitsOk, MatsOk, RangesOk, RangeFor;
  }

  lemma RearmAll(l: Layout, s: State)
    requires Inv(l, s)
    ensures RearmBelow(l, s, l.dataStart + |s.overlay|) == Rearm(l, s)
  {
    hide FramesOk, CodeFramesOk, LeavesOk, UnitsOk, MatsOk, RangesOk, RangeFor;
  }

  lemma RearmStep(l: Layout, s: State, p: nat)
    requires Inv(l, s) && l.dataStart <= p < l.dataStart + |s.overlay|
    ensures p < 0x10_0000
    ensures
      var m := RearmBelow(l, s, p);
      RearmBelow(l, s, p + 1) == if s.overlay[p - l.dataStart].Some? && p in m then m[p := m[p].(w := false)] else m
  {
    hide FramesOk, CodeFramesOk, LeavesOk, UnitsOk, MatsOk, RangesOk, RangeFor;
    var m, m' := RearmBelow(l, s, p), RearmBelow(l, s, p + 1);
    assert forall q :: q in s.leaves && q != p ==> m'[q] == m[q];
  }

  class Handler {
    const l: Layout
    const pt: PT.PageTable
    var phys: map<nat, seq<byte>>
    var overlay: seq<Option<nat>>
    var mat: seq<PageState>
    var roUnits: set<nat>
    var gas: int
    var nextFrame: nat

    /** Private pages that can still be allocated, if there is a limit. */
    var pagesLeft: Option<nat>

    ghost function View(): State
      reads this, pt
    {
      State(LeavesOf(pt.at, pt.root), phys, overlay, mat, roUnits, gas, nextFrame)
    }

    /** The page table is sound and realizes a state the handler keeps. */
    ghost predicate Ready()
      reads this, pt
    {
      pt.Valid() && Inv(l, View()) && nextFrame <= FRAMES
    }

    /** Neither tables nor the private pages of one fault can run out. */
    predicate Ample()
      reads this, pt
    {
      pt.left.None? && pagesLeft.None? && nextFrame + 2 <= FRAMES
    }

    constructor (l: Layout, pt: PT.PageTable, phys: map<nat, seq<byte>>, nextFrame: nat, gas: int, pagesLeft: Option<nat>)
      requires pt.Valid() && nextFrame <= FRAMES
      requires LayoutOk(l) && PT.SameWalks(pt.at, map[], pt.root)
      requires FramesOk(l, phys, seq(|l.backing|, _ => None), nextFrame) && CodeFramesOk(l, phys)
      ensures Ready() && View().leaves == map[] && this.gas == gas && this.l == l && this.pt == pt
    {
      this.l := l;
      this.pt := pt;
      this.phys := phys;
      this.nextFrame := nextFrame;
      this.gas := gas;
      this.pagesLeft := pagesLeft;
      overlay := seq(|l.backing|, _ => None);
      mat := seq(|l.backing|, _ => NotPresent);
      roUnits := {};
      new;
      hide Inv, LayoutOk, FramesOk, CodeFramesOk, PT.PageTable.Valid, LeavesOf, PT.SameWalks;
      NoLeaves(pt.at, pt.root);
      EmptyInv(l, phys, nextFrame, gas);
    }

    /** Write one leaf; without tables for its path nothing changes. */
    method MapOne(p: nat, frame: nat, writable: bool) returns (ok: bool)
      requires pt.Valid() && p < PT.GUEST_PAGES && frame < FRAMES
      modifies pt
      ensures pt.Valid() && (old(pt.left).None? ==> ok && pt.left.None?)
      ensures LeavesOf(pt.at, pt.root) ==
        var before := old(LeavesOf(pt.at, pt.root)); if ok then before[p := Leaf(frame, writable)] else before
    {
      ghost var before := pt.at;
      var perm := if writable then USER_RW else USER_RO;
      ok := pt.MapLeaf(p, frame, perm);
      if ok {
        MapLeafLeaves(before, pt.at, pt.root, p, frame, perm);
      } else {
        SameLeaves(before, pt.at, pt.root);
      }
    }

    /** Map every page of the window read-only, as far as tables last. */
    method MapWindow(lo: nat, hi: nat, ghost p: nat) returns (ok: bool, ghost end: nat)
      requires pt.Valid() && LayoutOk(l) && |overlay| == |l.backing| && IsRo(l, p)
      requires lo == UnitLo(l, p) && hi == UnitHi(l, p)
      requires forall q :: lo <= q < hi && IsRo(l, q) ==> q < PT.GUEST_PAGES && RoFrame(l, overlay, q) < FRAMES
      modifies pt
      ensures pt.Valid() && (old(pt.left).None? ==> ok && pt.left.None?) && (ok ==> end == hi)
      ensures LeavesOf(pt.at, pt.root) == old(LeavesOf(pt.at, pt.root)) + RoLeaves(l, overlay, lo, end)
    {
      hide LayoutOk, IsRo, LeavesOf, PT.PageTable.Valid, RoFrame, Cap, Unit;
      var q := lo;
      ghost var leaves := LeavesOf(pt.at, pt.root);
      assert lo <= hi && RoLeaves(l, overlay, lo, lo) == map[];
      hide RoLeaves, UnitLo, UnitHi;
      while q < hi
        invariant lo <= q <= hi && pt.Valid() && (old(pt.left).None? ==> pt.left.None?)
        invariant LeavesOf(pt.at, pt.root) == leaves + RoLeaves(l, overlay, lo, q)
      {
        UnitWindow(l, p, q);
        WindowStep(l, overlay, leaves, lo, q);
        ok := MapOne(q, RoFrame(l, overlay, q), false);
        if !ok {
          return false, q;
        }
        q := q + 1;
      }
      ok, end := true, q;
    }

    /** `materialize_ro_unit`: fault the whole unit of `p` around. */
    method MaterializeRoUnit(p: nat) returns (ok: bool)
      requires Ready() && IsRo(l, p)
      modifies pt, this`roUnits
      ensures pt.Valid() && (old(pt.left).None? ==> ok && pt.left.None?)
      ensures if ok then Ready() && View() == MapUnit(l, old(View()), p) else Abandoned(l, old(View()), View())
    {
      hide Inv, LayoutOk, RangeFor, IsRo, LeavesOf, PT.PageTable.Valid, Abandoned, RoLeaves;
      ghost var s := View();
      MapUnitKeepsInv(l, s, p);
      InvLayout(l, s);
      var u := Unit(l, p);
      if u in roUnits {
        return true;
      }
      roUnits := roUnits + {u};
      forall q | UnitLo(l, p) <= q < UnitHi(l, p) && IsRo(l, q) ensures q < PT.GUEST_PAGES && RoFrame(l, overlay, q) < FRAMES {
        RoFrameBound(l, s, q);
      }
      ghost var end;
      ok, end := MapWindow(UnitLo(l, p), UnitHi(l, p), p);
      if ok {
        assert View() == MapUnit(l, s, p);
      } else {
        AbandonedUnit(l, s, u, UnitLo(l, p), end);
        assert View() == s.(roUnits := s.roUnits + {u}, leaves := s.leaves + RoLeaves(l, s.overlay, UnitLo(l, p), end));
      }
    }

    /** `cow_into_fresh`: copy the effective page into a fresh private frame, map
        it writable, commit it to the overlay. Without a page, or without tables
        to map it, nothing changes: the copy is dropped. */
    method CowIntoFresh(p: nat) returns (ok: bool)
      requires Ready() && InData(l, p) && Source(l, overlay, p - l.dataStart) in phys
      modifies pt, this`phys, this`overlay, this`nextFrame, this`pagesLeft
      ensures pt.Valid() && (old(pt.left).None? ==> pt.left.None?) && (old(pagesLeft).None? ==> pagesLeft.None?)
      ensures !ok ==> View() == old(View()) && (old(pt.left).Some? || old(pagesLeft).Some? || nextFrame == FRAMES)
      ensures ok ==> View() == Cow(l, old(View()), p) && nextFrame == old(nextFrame) + 1 <= FRAMES
    {
      hide Inv, RangesOk, RangeFor, LeavesOf, PT.PageTable.Valid;
      InvLayout(l, View());
      SourceBound(l, View(), p);
      if pagesLeft == Some(0) || nextFrame == FRAMES {
        return false;
      }
      var i := p - l.dataStart;
      var f, copy := nextFrame, phys[Source(l, overlay, i)];
      ok := MapOne(p, f, true);
      if ok {
        phys := phys[f := copy];
        nextFrame := f + 1;
        overlay := overlay[i := Some(f)];
        pagesLeft := if pagesLeft.Some? then Some(pagesLeft.value - 1) else None;
      }
    }

    /** Set the W bit back on a private page whose leaf was re-armed. */
    method FlipW(p: nat) returns (flipped: bool)
      requires pt.Valid() && p < PT.GUEST_PAGES
      modifies pt
      ensures pt.Valid() && pt.left == old(pt.left)
      ensures flipped <==> p in old(LeavesOf(pt.at, pt.root))
      ensures LeavesOf(pt.at, pt.root) ==
        var before := old(LeavesOf(pt.at, pt.root)); if p in before then before[p := before[p].(w := true)] else before
    {
      ghost var before := pt.at;
      flipped := pt.SetLeafW(p, true);
      hide PT.PageTable.Valid, PT.Walk;
      if flipped {
        SetLeafWLeaves(before, pt.at, pt.root, p, true);
      }
    }

    /** Make one writable-kind data page present; the charge is debited later. */
    method MaterializeData(p: nat, isWrite: bool) returns (ok: bool, charge: nat)
      requires Ready() && InData(l, p) && !Pinned(l, p) && Source(l, overlay, p - l.dataStart) in phys
      modifies pt, this`phys, this`overlay, this`nextFrame, this`mat, this`pagesLeft
      ensures pt.Valid() && (old(pt.left).None? ==> pt.left.None?) && (old(pagesLeft).None? ==> pagesLeft.None?)
      ensures !ok ==> View() == old(View()) && (old(pt.left).Some? || old(pagesLeft).Some? || nextFrame == FRAMES)
      ensures
        var s' := MapData(l, old(View()), p, isWrite);
        ok ==> View() == s'.(gas := gas) && charge == gas - s'.gas && old(nextFrame) <= nextFrame <= old(nextFrame) + 1
      ensures nextFrame <= FRAMES
    {
      hide Inv, LayoutOk, RangeFor, LeavesOf, PT.PageTable.Valid, Cow;
      ghost var s := View();
      InvLayout(l, s);
      MapDataKeepsInv(l, s, p, isWrite);
      SourceBound(l, s, p);
      var i := p - l.dataStart;
      var cur := mat[i];
      var c := ChargeFor(cur, KindOf(l, p), isWrite).value;
      if c.state == PresentRo && cur == NotPresent {
        ok := MapOne(p, Source(l, overlay, i), false);
        if !ok {
          return false, 0;
        }
      } else if c.state == PresentRw && cur != PresentRw {
        var flipped := false;
        if overlay[i].Some? {
          flipped := FlipW(p);
        }
        if !flipped {
          ok := CowIntoFresh(p);
          if !ok {
            return false, 0;
          }
        }
      }
      mat := mat[i := c.state];
      ok, charge := true, c.gas;
      assert View() == MapData(l, s, p, isWrite).(gas := gas);
    }

    method MaterializePage(p: nat, isWrite: bool) returns (ok: bool, charge: nat)
      requires Ready() && (InCode(l, p) || InData(l, p)) && !(isWrite && IsRo(l, p))
      modifies pt, this`phys, this`overlay, this`nextFrame, this`mat, this`roUnits, this`pagesLeft
      ensures pt.Valid() && (old(pt.left).None? ==> pt.left.None?) && (old(pagesLeft).None? ==> pagesLeft.None?)
      ensures !ok ==> Abandoned(l, old(View()), View()) && (old(pt.left).Some? || old(pagesLeft).Some? || old(nextFrame) == FRAMES)
      ensures
        var s' := MapPage(l, old(View()), p, isWrite);
        ok ==> Ready() && View() == s'.(gas := gas) && charge == gas - s'.gas && nextFrame <= old(nextFrame) + 1
    {
      hide Inv, LayoutOk, RangeFor, LeavesOf, PT.PageTable.Valid, Cow, MapUnit, MapData, Abandoned, IsRo;
      ghost var s := View();
      InvLayout(l, s);
      MapPageKeepsInv(l, s, p, isWrite);
      InvAnyGas(l, MapPage(l, s, p, isWrite), s.gas);
      if IsRo(l, p) {
        ok := MaterializeRoUnit(p);
        charge := 0;
        UnitIsFree(l, s, p);
      } else {
        IsRoData(l, p);
        SourcePresent(l, s, p);
        AbandonedAtOnce(l, s);
        ok, charge := MaterializeData(p, isWrite);
      }
    }

    /** `try_materialize`: check the whole page set first, then make every page
        present, then debit. A refusal changes nothing; running out of tables or
        private pages abandons the resolution. */
    method TryMaterialize(gva: u32, width: nat, isWrite: bool) returns (ok: bool)
      requires Ready() && 1 <= width <= 8
      modifies pt, this`phys, this`overlay, this`nextFrame, this`mat, this`gas, this`roUnits, this`pagesLeft
      ensures pt.Valid()
      ensures
        match Materialize(l, old(View()), gva, width, isWrite)
        case None => !ok && View() == old(View())
        case Some(s') =>
          if ok then Ready() && View() == s' else Abandoned(l, old(View()), View()) && !old(Ample())
    {
      hide Inv, LayoutOk, RangeFor, LeavesOf, PT.PageTable.Valid, MapPage, AccessPages, Pinned, Abandoned;
      ghost var s := View();
      var pages := AccessPages(gva, width);
      var k := 0;
      while k < |pages|
        invariant 0 <= k <= |pages|
        invariant forall j :: 0 <= j < k ==> Materializable(l, pages[0], pages[j], isWrite)
      {
        if !Materializable(l, pages[0], pages[k], isWrite) {
          return false;
        }
        k := k + 1;
      }
      InvLayout(l, s);
      MapPageKeepsInv(l, s, pages[0], isWrite);
      var total, charge;
      ok, total := MaterializePage(pages[0], isWrite);
      if !ok {
        return false;
      }
      if |pages| == 2 {
        ghost var s1 := View();
        ok, charge := MaterializePage(pages[1], isWrite);
        if !ok {
          AbandonedSecond(l, s, pages[0], isWrite, View());
          return false;
        }
        total := total + charge;
        MapPageAnyGas(l, MapPage(l, s, pages[0], isWrite), s.gas, pages[1], isWrite);
        MapPageKeepsInv(l, MapPage(l, s, pages[0], isWrite), pages[1], isWrite);
      }
      gas := gas - total;
    }

    /** `rearm_cow`: clear the W bit of every private page before the table is
        parked. */
    method RearmCow()
      requires Ready()
      modifies pt
      ensures pt.Valid() && LeavesOf(pt.at, pt.root) == Rearm(l, old(View()))
    {
      hide Inv, LayoutOk, PT.PageTable.Valid, LeavesOf, PT.Walk, RearmBelow, Rearm;
      ghost var s := View();
      InvLayout(l, s);
      var i := 0;
      RearmNone(l, s);
      while i < |overlay|
        invariant 0 <= i <= |overlay| && pt.Valid()
        invariant LeavesOf(pt.at, pt.root) == RearmBelow(l, s, l.dataStart + i)
      {
        RearmStep(l, s, l.dataStart + i);
        if overlay[i].Some? {
          ghost var before := pt.at;
          var found := pt.SetLeafW(l.dataStart + i, false);
          LeavesDomain(before, pt.root, l.dataStart + i);
          if found {
            SetLeafWLeaves(before, pt.at, pt.root, l.dataStart + i, false);
          }
        }
        i := i + 1;
      }
      RearmAll(l, s);
    }

    /** A new CALL starts with the page state and the unit set cleared. */
    method StartCall()
      requires Ready()
      modifies pt, this`mat, this`roUnits
      ensures Ready() && View() == Parked(l, old(View()))
    {
      hide Inv, RangesOk, RangeFor, PT.PageTable.Valid, LeavesOf;
      ghost var s := View();
      RearmCow();
      mat := seq(|l.backing|, _ => NotPresent);
      roUnits := {};
      assert View() == Parked(l, s);
    }
  }
}
