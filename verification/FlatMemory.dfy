/** The interpreter's flat memory with first-touch accounting (nub-exec `mem.rs`)
    and the load and store paths of `interp.rs` on top of it.

    `Mem` is the value `Interpreter.CopyingMemory` holds in place; the functions
    here specify its methods. */
module FlatMemory {
  import opened Prelude
  import opened Mat

  datatype Perm = NoAccess | ReadOnly | ReadWrite

  datatype Mem = Mem(
    base: nat,
    flat: seq<byte>,
    perms: seq<Perm>,
    mat: seq<PageState>,
    codeBase: nat,
    codeTop: nat)

  predicate Valid(m: Mem) {
    && m.base % 4096 == 0
    && |m.flat| == 4096 * |m.perms|
    && |m.mat| == |m.perms|
    && m.base + |m.flat| <= 0x1_0000_0000
    && m.codeBase % 4096 == 0
  }

  /** Byte offset of `addr` in the buffer; wraps below `base`. */
  function Off(m: Mem, addr: nat): nat
    requires m.base <= 0x1_0000_0000
  {
    if addr >= m.base then addr - m.base else addr + 0x1_0000_0000 - m.base
  }

  function PageIndex(m: Mem, p: nat): (r: Option<nat>)
    requires Valid(m) && p < 0x10_0000
    ensures r.Some? <==> m.base <= 4096 * p < m.base + |m.flat|
    ensures r.Some? ==> r.value < |m.perms| && r.value == p - m.base / 4096
  {
    var o := Off(m, 4096 * p);
    if o < |m.flat| then Some(o / 4096) else None
  }

  predicate IsCodePage(m: Mem, p: nat) {
    m.codeTop > m.codeBase && m.codeBase <= 4096 * p < m.codeTop
  }

  predicate Accessible(m: Mem, p: nat, isWrite: bool)
    requires Valid(m) && p < 0x10_0000
  {
    match PageIndex(m, p)
    case None => false
    case Some(i) => m.perms[i] != NoAccess && (isWrite ==> m.perms[i] == ReadWrite)
  }

  /** Number of pages not yet written. */
  function NotRw(mat: seq<PageState>): (n: nat)
    ensures n <= |mat|
  {
    if mat == [] then 0
    else NotRw(mat[..|mat| - 1]) + if mat[|mat| - 1] == PresentRw then 0 else 1
  }

  lemma {:induction false} NotRwUpdate(mat: seq<PageState>, i: nat, s: PageState)
    requires i < |mat|
    ensures NotRw(mat[i := s]) + (if mat[i] == PresentRw then 0 else 1)
         == NotRw(mat) + (if s == PresentRw then 0 else 1)
  {
    var k := |mat| - 1;
    if i == k {
      assert mat[i := s][..k] == mat[..k];
    } else {
      NotRwUpdate(mat[..k], i, s);
      assert mat[i := s][..k] == mat[..k][i := s];
    }
  }

  datatype Touched = Touched(mem: Mem, charge: nat)

  /** Advance the state of one accessible data page; read-only pages keep
      theirs. */
  function TouchPage(m: Mem, p: nat, isWrite: bool): (r: Touched)
    requires Valid(m) && p < 0x10_0000 && Accessible(m, p, isWrite)
    ensures Valid(r.mem) && r.mem == m.(mat := r.mem.mat)
    ensures r.charge == COW_COST * (NotRw(m.mat) - NotRw(r.mem.mat))
  {
    var i := PageIndex(m, p).value;
    if m.perms[i] != ReadOnly then
      var c := ChargeFor(m.mat[i], UnpinnedCapCow, isWrite).value;
      NotRwUpdate(m.mat, i, c.state);
      Touched(m.(mat := m.mat[i := c.state]), c.gas)
    else
      Touched(m, 0)
  }

  /** What a touch does to the states: a write leaves the page writable, a first read
      present; read-only pages and all others keep theirs. */
  lemma TouchedState(m: Mem, p: nat, isWrite: bool, j: nat)
    requires Valid(m) && p < 0x10_0000 && Accessible(m, p, isWrite) && j < |m.mat|
    ensures TouchPage(m, p, isWrite).mem.mat[j] ==
            if j != p - m.base / 4096 || m.perms[j] == ReadOnly then m.mat[j]
            else if isWrite then PresentRw
            else if m.mat[j] == NotPresent then PresentRo
            else m.mat[j]
  {
  }

  lemma StillAccessible(m: Mem, m': Mem, pages: seq<nat>, isWrite: bool)
    requires Valid(m) && Valid(m') && m' == m.(mat := m'.mat)
    requires forall k :: 0 <= k < |pages| ==> pages[k] < 0x10_0000 && Accessible(m, pages[k], isWrite)
    ensures forall k :: 0 <= k < |pages| ==> Accessible(m', pages[k], isWrite)
  {
    forall k | 0 <= k < |pages| ensures Accessible(m', pages[k], isWrite) {
      assert Accessible(m, pages[k], isWrite);
    }
  }

  function TouchPages(m: Mem, pages: seq<nat>, isWrite: bool): (r: Touched)
    requires Valid(m)
    requires forall k :: 0 <= k < |pages| ==> pages[k] < 0x10_0000 && Accessible(m, pages[k], isWrite)
    ensures Valid(r.mem) && r.mem == m.(mat := r.mem.mat)
    ensures r.charge == COW_COST * (NotRw(m.mat) - NotRw(r.mem.mat))
    ensures r.charge <= COW_COST * |pages|
    ensures !isWrite ==> r.charge == 0
    decreases |pages|
  {
    if pages == [] then Touched(m, 0)
    else
      var t := TouchPage(m, pages[0], isWrite);
      StillAccessible(m, t.mem, pages[1..], isWrite);
      var u := TouchPages(t.mem, pages[1..], isWrite);
      Touched(u.mem, t.charge + u.charge)
  }

  lemma TouchNone(m: Mem, isWrite: bool)
    requires Valid(m)
    ensures TouchPages(m, [], isWrite) == Touched(m, 0)
  {
  }

  lemma TouchFirst(m: Mem, pages: seq<nat>, isWrite: bool)
    requires Valid(m) && pages != []
    requires forall k :: 0 <= k < |pages| ==> pages[k] < 0x10_0000 && Accessible(m, pages[k], isWrite)
    ensures
      var t := TouchPage(m, pages[0], isWrite);
      && (forall k :: 0 <= k < |pages| - 1 ==> Accessible(t.mem, pages[1..][k], isWrite))
      && var u := TouchPages(t.mem, pages[1..], isWrite);
         TouchPages(m, pages, isWrite) == Touched(u.mem, t.charge + u.charge)
  {
    StillAccessible(m, TouchPage(m, pages[0], isWrite).mem, pages[1..], isWrite);
  }

  /** An access touches its one or two pages in order. */
  lemma TouchPagesInOrder(m: Mem, pages: seq<nat>, isWrite: bool)
    requires Valid(m) && 1 <= |pages| <= 2
    requires forall k :: 0 <= k < |pages| ==> pages[k] < 0x10_0000 && Accessible(m, pages[k], isWrite)
    ensures |pages| == 1 ==> TouchPages(m, pages, isWrite) == TouchPage(m, pages[0], isWrite)
    ensures
      var t := TouchPage(m, pages[0], isWrite);
      |pages| == 2 ==>
        && Accessible(t.mem, pages[1], isWrite)
        && var u := TouchPage(t.mem, pages[1], isWrite);
           TouchPages(m, pages, isWrite) == Touched(u.mem, t.charge + u.charge)
  {
    var t := TouchPage(m, pages[0], isWrite);
    if |pages| == 2 {
      assert Accessible(m, pages[1], isWrite);
      var u := TouchPage(t.mem, pages[1], isWrite);
      assert pages[1..] == [pages[1]] && pages[1..][1..] == [];
      assert TouchPages(t.mem, pages[1..], isWrite) == u;
    } else {
      assert pages[1..] == [];
    }
  }

  /** First-touch accounting of one access; `None` is `TouchFault`. Either the
      whole page set is charged or nothing is. */
  function Touch(m: Mem, addr: u32, width: nat, isWrite: bool): (r: Option<Touched>)
    requires Valid(m) && 1 <= width <= 8
    ensures r.Some? ==> Valid(r.value.mem) && r.value.mem == m.(mat := r.value.mem.mat)
    ensures r.Some? ==> r.value.charge == COW_COST * (NotRw(m.mat) - NotRw(r.value.mem.mat))
    ensures r.Some? ==> r.value.charge <= if isWrite then COW_COST * MAX_PAGES_PER_ACCESS else 0
  {
    var pages := AccessPages(addr, width);
    var i0 := PageIndex(m, pages[0]);
    if i0.Some? && m.perms[i0.value] != NoAccess then
      if forall p :: p in pages ==> Accessible(m, p, isWrite) then
        Some(TouchPages(m, pages, isWrite))
      else None
    else if IsCodePage(m, pages[0]) then
      if !isWrite && forall p :: p in pages ==> IsCodePage(m, p) then Some(Touched(m, 0)) else None
    else
      Some(Touched(m, 0))
  }

  /** Page indices an access turned writable. */
  function Written(before: seq<PageState>, after: seq<PageState>): set<nat> {
    set i: nat | i < |before| && i < |after| && before[i] != PresentRw && after[i] == PresentRw
  }

  /** Writability is never lost. */
  predicate Grows(before: seq<PageState>, after: seq<PageState>) {
    |before| == |after| && forall i :: 0 <= i < |before| && before[i] == PresentRw ==> after[i] == PresentRw
  }

  lemma {:induction false} WrittenCount(before: seq<PageState>, after: seq<PageState>)
    requires Grows(before, after)
    ensures NotRw(before) == NotRw(after) + |Written(before, after)|
  {
    var k := |before| - 1;
    if k < 0 {
      assert Written(before, after) == {};
    } else {
      WrittenCount(before[..k], after[..k]);
      var w := Written(before[..k], after[..k]);
      if before[k] != PresentRw && after[k] == PresentRw {
        assert Written(before, after) == w + {k};
      } else {
        assert Written(before, after) == w;
      }
    }
  }

  lemma {:induction false} TouchPagesGrow(m: Mem, pages: seq<nat>, isWrite: bool)
    requires Valid(m)
    requires forall k :: 0 <= k < |pages| ==> pages[k] < 0x10_0000 && Accessible(m, pages[k], isWrite)
    ensures Grows(m.mat, TouchPages(m, pages, isWrite).mem.mat)
    decreases |pages|
  {
    if pages != [] {
      var t := TouchPage(m, pages[0], isWrite);
      StillAccessible(m, t.mem, pages[1..], isWrite);
      TouchPagesGrow(t.mem, pages[1..], isWrite);
    }
  }

  /** A charge is COW_COST for every page the access turned writable. */
  lemma TouchCharge(m: Mem, addr: u32, width: nat, isWrite: bool)
    requires Valid(m) && 1 <= width <= 8 && Touch(m, addr, width, isWrite).Some?
    ensures
      var t := Touch(m, addr, width, isWrite).value;
      Grows(m.mat, t.mem.mat) && t.charge == COW_COST * |Written(m.mat, t.mem.mat)|
  {
    var pages := AccessPages(addr, width);
    var t := Touch(m, addr, width, isWrite).value;
    if PageIndex(m, pages[0]).Some? && m.perms[PageIndex(m, pages[0]).value] != NoAccess {
      TouchPagesGrow(m, pages, isWrite);
    }
    hide Touch, NotRw;
    WrittenCount(m.mat, t.mem.mat);
  }

  // ---- Width-typed reads and writes -------------------------------------

  function Read(m: Mem, addr: u32, width: nat): (r: Option<seq<byte>>)
    requires Valid(m)
    ensures r.Some? ==> |r.value| == width
  {
    var a := Off(m, addr);
    if a + width <= |m.flat| then Some(m.flat[a..a + width]) else None
  }

  function Write(m: Mem, addr: u32, data: seq<byte>): (r: Option<Mem>)
    requires Valid(m)
    ensures r.Some? ==> Valid(r.value) && r.value == m.(flat := r.value.flat)
    ensures r.Some? <==> Read(m, addr, |data|).Some?
    ensures r.Some? ==> Read(r.value, addr, |data|) == Some(data)
  {
    var a := Off(m, addr);
    if a + |data| <= |m.flat| then
      Some(m.(flat := m.flat[..a] + data + m.flat[a + |data|..]))
    else None
  }

  /** Writes that do not overlap commute with reads. */
  lemma WriteFrame(m: Mem, addr: u32, data: seq<byte>, other: u32, width: nat)
    requires Valid(m) && Write(m, addr, data).Some?
    requires Off(m, other) + width <= Off(m, addr) || Off(m, addr) + |data| <= Off(m, other)
    ensures Read(Write(m, addr, data).value, other, width) == Read(m, other, width)
  {
    var m' := Write(m, addr, data).value;
    assert |m'.flat| == |m.flat|;
    if Read(m, other, width).Some? {
      var o := Off(m, other);
      assert m'.flat[o..o + width] == m.flat[o..o + width];
    }
  }

  function PermOf(m: Mem, addr: u32): Perm
    requires Valid(m)
  {
    var page := Off(m, addr) / 4096;
    if page < |m.perms| then m.perms[page] else NoAccess
  }

  // ---- Loads and stores of the interpreter ------------------------------

  function RoundUp(n: nat): (r: nat)
    ensures r % 4096 == 0 && n <= r < n + 4096
  {
    (n + 4095) / 4096 * 4096
  }

  /** The code region reads as its bytes, then zeros up to the page-rounded
      end. */
  function ReadCode(code: seq<byte>, codeBase: nat, addr: u32, width: nat): (r: Option<seq<byte>>)
    ensures r.Some? ==> |r.value| == width
  {
    if addr < codeBase || addr - codeBase + width > RoundUp(|code|) then None
    else
      var o := addr - codeBase;
      Some(seq<byte>(width, k requires 0 <= k < width => if o + k < |code| then code[o + k] else 0))
  }

  /** The region as an image: the code and its padding. */
  lemma ReadCodeImage(code: seq<byte>, codeBase: nat, addr: u32, width: nat)
    ensures
      var r, image := ReadCode(code, codeBase, addr, width), code + Zeros(RoundUp(|code|) - |code|);
      && (r.Some? <==> codeBase <= addr && addr - codeBase + width <= |image|)
      && (r.Some? ==> r.value == image[addr - codeBase..addr - codeBase + width])
  {
  }

  /** Outcome of one guest access: the memory after it, the gas it debits, and
      the bytes transferred (`None` is a page fault). */
  datatype Access = Access(mem: Mem, charge: nat, bytes: Option<seq<byte>>)

  function Load(m: Mem, code: seq<byte>, codeBase: nat, addr: u32, width: nat): (r: Access)
    requires Valid(m) && 1 <= width <= 8
    ensures Valid(r.mem) && r.mem == m.(mat := r.mem.mat) && NotRw(r.mem.mat) == NotRw(m.mat)
    ensures r.charge == 0
    ensures r.bytes.Some? ==> |r.bytes.value| == width
  {
    match Touch(m, addr, width, false)
    case None => Access(m, 0, None)
    case Some(t) =>
      var v := Read(t.mem, addr, width);
      Access(t.mem, t.charge, if v.Some? then v else ReadCode(code, codeBase, addr, width))
  }

  /** A load inside the code region, which lies below the data, gets the code
      bytes it names. */
  lemma LoadCode(m: Mem, code: seq<byte>, addr: u32, width: nat)
    requires Valid(m) && 1 <= width <= 8 && m.codeTop == m.codeBase + RoundUp(|code|) <= m.base
    requires m.codeBase <= addr && addr - m.codeBase + width <= |code|
    ensures
      var o := addr - m.codeBase;
      Load(m, code, m.codeBase, addr, width) == Access(m, 0, Some(code[o..o + width]))
  {
    hide ReadCode, TouchPages, Accessible;
    ReadCodeImage(code, m.codeBase, addr, width);
    var o := addr - m.codeBase;
    assert (code + Zeros(RoundUp(|code|) - |code|))[o..o + width] == code[o..o + width];
    forall p | p in AccessPages(addr, width) ensures IsCodePage(m, p) && PageIndex(m, p).None? {
      assert m.codeBase <= 4096 * p < m.codeTop;
    }
  }

  predicate StoreWritable(m: Mem, addr: u32, width: nat)
    requires Valid(m) && 1 <= width <= 8
  {
    PermOf(m, addr) == ReadWrite && PermOf(m, ByteAddr(addr, width - 1)) == ReadWrite
  }

  function Store(m: Mem, addr: u32, data: seq<byte>): (r: Access)
    requires Valid(m) && 1 <= |data| <= 8
    ensures Valid(r.mem) && |r.mem.mat| == |m.mat|
    ensures r.charge == COW_COST * (NotRw(m.mat) - NotRw(r.mem.mat))
    ensures r.charge <= COW_COST * MAX_PAGES_PER_ACCESS
    ensures r.bytes.Some? ==> r.bytes == Some(data)
  {
    match Touch(m, addr, |data|, true)
    case None => Access(m, 0, None)
    case Some(t) =>
      if !StoreWritable(t.mem, addr, |data|) then Access(t.mem, t.charge, None)
      else
        match Write(t.mem, addr, data)
        case None => Access(t.mem, t.charge, None)
        case Some(m') => Access(m', t.charge, Some(data))
  }

  /** A store is charged for each page it turns writable, faulting or not. */
  lemma StoreCharge(m: Mem, addr: u32, data: seq<byte>)
    requires Valid(m) && 1 <= |data| <= 8
    ensures
      var s := Store(m, addr, data);
      Grows(m.mat, s.mem.mat) && s.charge == COW_COST * |Written(m.mat, s.mem.mat)|
  {
    hide Touch, NotRw;
    if Touch(m, addr, |data|, true).Some? {
      TouchCharge(m, addr, |data|, true);
    } else {
      assert Written(m.mat, m.mat) == {};
    }
  }

  /** A writable byte lies in a declared data page. */
  lemma WritableData(m: Mem, addr: u32)
    requires Valid(m) && PermOf(m, addr) == ReadWrite
    ensures
      var i := PageIndex(m, addr / 4096);
      i.Some? && m.perms[i.value] == ReadWrite
  {
  }

  /** A successful store was to accessible data pages and reads back. */
  lemma StoreShape(m: Mem, addr: u32, data: seq<byte>)
    requires Valid(m) && 1 <= |data| <= 8 && Store(m, addr, data).bytes.Some?
    ensures
      var m' := Store(m, addr, data).mem;
      && m' == m.(mat := m'.mat, flat := m'.flat) && |m'.flat| == |m.flat|
      && (forall p :: p in AccessPages(addr, |data|) ==> Accessible(m', p, false))
      && Read(m', addr, |data|) == Some(data)
  {
    hide TouchPages, NotRw;
    var t := Touch(m, addr, |data|, true).value;
    var m' := Store(m, addr, data).mem;
    WritableData(t.mem, addr);
    assert m' == m.(mat := m'.mat, flat := m'.flat) && |m'.flat| == |m.flat|;
    hide Write;
    forall p | p in AccessPages(addr, |data|) ensures Accessible(m', p, false) {
      assert Accessible(m, p, true);
    }
  }

  /** What a store put into memory, a load of the same bytes gets back. */
  lemma StoreThenLoad(m: Mem, code: seq<byte>, codeBase: nat, addr: u32, data: seq<byte>)
    requires Valid(m) && 1 <= |data| <= 8 && Store(m, addr, data).bytes.Some?
    ensures Load(Store(m, addr, data).mem, code, codeBase, addr, |data|).bytes == Some(data)
  {
    hide TouchPages, NotRw, Store, AccessPages, PermOf, ReadCode, PageIndex;
    var m' := Store(m, addr, data).mem;
    StoreShape(m, addr, data);
    var pages := AccessPages(addr, |data|);
    assert Accessible(m', pages[0], false);
    assert Touch(m', addr, |data|, false) == Some(TouchPages(m', pages, false));
  }

  /** A load from readable data pages gets the bytes of the buffer at its address. */
  lemma LoadData(m: Mem, code: seq<byte>, codeBase: nat, addr: u32, width: nat)
    requires Valid(m) && 1 <= width <= 8 && m.base <= addr && addr - m.base + width <= |m.flat|
    requires forall p :: p in AccessPages(addr, width) ==> Accessible(m, p, false)
    ensures
      var o := addr - m.base;
      Load(m, code, codeBase, addr, width).bytes == Some(m.flat[o..o + width])
  {
    hide TouchPages, NotRw, ReadCode, AccessPages, PageIndex;
    var pages := AccessPages(addr, width);
    assert Accessible(m, pages[0], false);
    assert Touch(m, addr, width, false) == Some(TouchPages(m, pages, false));
  }

  lemma WritablePages(m: Mem, addr: u32, width: nat)
    requires Valid(m) && 1 <= width <= 8 && m.base <= addr && addr - m.base + width <= |m.flat|
    requires forall p :: p in AccessPages(addr, width) ==> Accessible(m, p, true)
    ensures StoreWritable(m, addr, width)
  {
    var pages, last := AccessPages(addr, width), ByteAddr(addr, width - 1);
    AccessPagesExact(addr, width, last / 4096);
    assert Accessible(m, pages[0], true) && Accessible(m, last / 4096, true);
  }

  /** A store to writable data pages puts its bytes there and changes no others. */
  lemma StoreData(m: Mem, addr: u32, data: seq<byte>)
    requires Valid(m) && 1 <= |data| <= 8 && m.base <= addr && addr - m.base + |data| <= |m.flat|
    requires forall p :: p in AccessPages(addr, |data|) ==> Accessible(m, p, true)
    ensures
      var o, s := addr - m.base, Store(m, addr, data);
      && s.bytes == Some(data) && |s.mem.flat| == |m.flat|
      && (forall k :: 0 <= k < |m.flat| ==> s.mem.flat[k] == if o <= k < o + |data| then data[k - o] else m.flat[k])
  {
    hide TouchPages, NotRw, AccessPages, PageIndex, StoreWritable;
    var pages := AccessPages(addr, |data|);
    assert Accessible(m, pages[0], true);
    var t := TouchPages(m, pages, true).mem;
    assert Touch(m, addr, |data|, true).value.mem == t;
    StillAccessible(m, t, pages, true);
    WritablePages(t, addr, |data|);
  }
}
