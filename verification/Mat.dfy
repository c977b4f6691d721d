/** Per-page materialization state machine (nub-exec `mat.rs`).

    Pages are named by page number (`address / 4096`), where the source uses
    the page-aligned address. */
module Mat {
  import opened Prelude

  const COW_COST: nat := 256
  const MAX_PAGES_PER_ACCESS: nat := 2

  datatype PageKind = PinnedCapRo | UnpinnedCapCow | EphemeralZero

  datatype PageState = NotPresent | PresentRo | PresentRw

  datatype Charged = Charged(gas: nat, state: PageState)

  /** Charge and next state of one page touch; `None` is the hard fault. */
  function ChargeFor(state: PageState, kind: PageKind, isWrite: bool): (r: Option<Charged>)
    ensures r.None? <==> isWrite && kind == PinnedCapRo
    // a write leaves the page writable, a read never takes writability away
    ensures r.Some? ==> (r.value.state == PresentRw <==> isWrite || state == PresentRw)
    // only the step into PresentRw costs anything
    ensures r.Some? ==>
              r.value.gas == if r.value.state == PresentRw && state != PresentRw then COW_COST else 0
  {
    if isWrite && kind == PinnedCapRo then None
    else
      match (state, isWrite)
      case (NotPresent, false) => Some(Charged(0, PresentRo))
      case (NotPresent, true) => Some(Charged(COW_COST, PresentRw))
      case (PresentRo, true) => Some(Charged(COW_COST, PresentRw))
      case (PresentRo, false) => Some(Charged(0, PresentRo))
      case (PresentRw, _) => Some(Charged(0, PresentRw))
  }

  /** Page numbers a `width`-byte access at `addr` touches, low to high; the
      straddle page wraps at the top of the 32-bit address space. */
  function AccessPages(addr: u32, width: nat): (r: seq<nat>)
    requires 1 <= width <= 8
    ensures 1 <= |r| <= MAX_PAGES_PER_ACCESS && (|r| == 2 ==> r[0] != r[1])
    ensures forall k :: 0 <= k < |r| ==> r[k] < 0x10_0000
  {
    var base := addr / 4096;
    if addr % 4096 + width > 4096 then [base, (base + 1) % 0x10_0000] else [base]
  }

  /** Address of the `k`-th byte of an access, wrapping at 4 GiB. */
  function ByteAddr(addr: u32, k: nat): u32
    requires k < 8
  {
    if addr + k < 0x1_0000_0000 then addr + k else addr + k - 0x1_0000_0000
  }

  /** The page set is exactly the set of pages of the accessed bytes. */
  lemma AccessPagesExact(addr: u32, width: nat, p: nat)
    requires 1 <= width <= 8
    ensures p in AccessPages(addr, width) <==> exists k :: 0 <= k < width && ByteAddr(addr, k) / 4096 == p
  {
    var r := AccessPages(addr, width);
    assert ByteAddr(addr, 0) / 4096 == r[0];
    if |r| == 2 {
      assert ByteAddr(addr, width - 1) / 4096 == r[1];
    }
  }

  /** First page of the read-only unit `cap ∩ 2 MiB cluster` holding page `p`. */
  function UnitBase(p: nat, capStart: nat): nat {
    Max(p / 512 * 512, capStart)
  }

  /** A unit is named by a page inside both the cap and the cluster, so the name
      identifies the pair: two pages of disjoint caps never share a unit. */
  lemma UnitIdentifiesCapAndCluster(p: nat, pStart: nat, pEnd: nat, q: nat, qStart: nat, qEnd: nat)
    requires pStart <= p < pEnd && qStart <= q < qEnd
    requires (pStart == qStart && pEnd == qEnd) || pEnd <= qStart || qEnd <= pStart
    requires UnitBase(p, pStart) == UnitBase(q, qStart)
    ensures pStart == qStart && pEnd == qEnd && p / 512 == q / 512
  {
    var u := UnitBase(p, pStart);
    assert pStart <= u <= p && u / 512 == p / 512;
    assert qStart <= u <= q && u / 512 == q / 512;
  }
}
