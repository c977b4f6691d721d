/** Four-level guest page tables built on demand (nub-arch-x86 `paging.rs`).

    Tables are named by the frame that holds them. A guest page number has 27
    bits: PML4 slot 0, then three nine-bit indices. */
module PageTables {
  import opened Prelude

  /** The bits of a page-table entry the code sets or tests. */
  datatype Entry = Entry(
    present: bool, writable: bool, user: bool, large: bool, global: bool, noExec: bool, frame: nat)

  datatype Perm = Perm(writable: bool, user: bool, executable: bool, global: bool)

  const EMPTY := Entry(false, false, false, false, false, false, 0)

  type Table = t: seq<Entry> | |t| == 512 witness seq(512, _ => EMPTY)

  function Zeroed(): (t: Table)
    ensures forall i :: 0 <= i < 512 ==> t[i] == EMPTY
  {
    seq(512, _ => EMPTY)
  }

  const GUEST_PAGES: nat := 0x800_0000

  /** Entry linking an inner table: present, writable, user (`inner_flags`). */
  function Inner(frame: nat): Entry {
    Entry(true, true, true, false, false, false, frame)
  }

  /** Leaf entry; the physical address is cut to bits 12..51 (`pte_flags`). */
  function LeafEntry(frame: nat, perm: Perm): Entry {
    Entry(true, perm.writable, perm.user, false, perm.global, !perm.executable, frame % 0x100_0000_0000)
  }

  /** Index of page `p` in the level-`k` table on its path. */
  function Index(p: nat, k: nat): (i: nat)
    requires 1 <= k <= 4
    ensures i < 512
  {
    if k == 1 then p % 512
    else if k == 2 then p / 512 % 512
    else if k == 3 then p / 0x4_0000 % 512
    else p / 0x800_0000 % 512
  }

  lemma DigitsIndex(i4: nat, i3: nat, i2: nat, i1: nat)
    requires i4 < 512 && i3 < 512 && i2 < 512 && i1 < 512
    ensures
      var p := ((i4 * 512 + i3) * 512 + i2) * 512 + i1;
      Index(p, 4) == i4 && Index(p, 3) == i3 && Index(p, 2) == i2 && Index(p, 1) == i1
  {
    var p := ((i4 * 512 + i3) * 512 + i2) * 512 + i1;
    assert p / 512 == (i4 * 512 + i3) * 512 + i2;
    assert p / 0x4_0000 == p / 512 / 512 == i4 * 512 + i3;
    assert p / 0x800_0000 == p / 0x4_0000 / 512 == i4;
  }

  /** The bits of `p` above level `k`, which pick the level-`k` table. */
  function Above(p: nat, k: nat): nat
    requires 1 <= k <= 4
  {
    if k == 1 then p / 512
    else if k == 2 then p / 0x4_0000
    else if k == 3 then p / 0x800_0000
    else p / 0x10_0000_0000
  }

  /** The indices are the page number's digits in base 512, most significant at the
      root. */
  lemma IndexDigits(p: nat)
    requires p < 0x10_0000_0000
    ensures p == ((Index(p, 4) * 512 + Index(p, 3)) * 512 + Index(p, 2)) * 512 + Index(p, 1)
  {
    assert p / 512 / 512 == p / 0x4_0000 && p / 0x4_0000 / 512 == p / 0x800_0000;
  }

  // ---- Walking ------------------------------------------------------------

  function Child(at: map<nat, Table>, t: nat, i: nat): Option<Entry>
    requires i < 512
  {
    if t in at && at[t][i].present && !at[t][i].large && at[t][i].frame in at then Some(at[t][i]) else None
  }

  lemma ChildEntry(at: map<nat, Table>, t: nat, i: nat)
    requires i < 512 && Child(at, t, i).Some?
    ensures t in at && Child(at, t, i).value == at[t][i] && at[t][i].frame in at
  {
  }

  /** What a walk has gathered on its way down: the table it reached and the
      permissions every level so far grants. */
  datatype Reached = Reached(table: nat, writable: bool, user: bool)

  /** The level-`k` table on the path of page `p`, from the root down. */
  function Path(at: map<nat, Table>, root: nat, p: nat, k: nat): (r: Option<Reached>)
    requires 1 <= k <= 4
    decreases 4 - k
  {
    if k == 4 then Some(Reached(root, true, true))
    else
      match Path(at, root, p, k + 1)
      case None => None
      case Some(up) =>
        match Child(at, up.table, Index(p, k + 1))
        case None => None
        case Some(e) => Some(Reached(e.frame, up.writable && e.writable, up.user && e.user))
  }

  /** What a walk of `p` yields: frame and effective permissions. */
  datatype View = View(frame: nat, writable: bool, user: bool, noExec: bool, global: bool)

  function Walk(at: map<nat, Table>, root: nat, p: nat): Option<View> {
    match Path(at, root, p, 1)
    case None => None
    case Some(r) =>
      var e := if r.table in at then at[r.table][Index(p, 1)] else EMPTY;
      if e.present then Some(View(e.frame, r.writable && e.writable, r.user && e.user, e.noExec, e.global)) else None
  }

  /** Four levels of lookup: through three present tables to the leaf, writable and
      user-accessible if all four entries are. */
  lemma WalkFour(at: map<nat, Table>, root: nat, i4: nat, i3: nat, i2: nat, i1: nat)
    requires i4 < 512 && i3 < 512 && i2 < 512 && i1 < 512 && root in at
    requires Child(at, root, i4).Some? && Child(at, at[root][i4].frame, i3).Some?
    requires Child(at, at[at[root][i4].frame][i3].frame, i2).Some?
    ensures
      var e4 := at[root][i4];
      var e3 := at[e4.frame][i3];
      var e2 := at[e3.frame][i2];
      var e1 := at[e2.frame][i1];
      Walk(at, root, ((i4 * 512 + i3) * 512 + i2) * 512 + i1) ==
        if !e1.present then None
        else Some(View(e1.frame, e4.writable && e3.writable && e2.writable && e1.writable,
                       e4.user && e3.user && e2.user && e1.user, e1.noExec, e1.global))
  {
    hide Index, Child;
    var p := ((i4 * 512 + i3) * 512 + i2) * 512 + i1;
    DigitsIndex(i4, i3, i2, i1);
    assert Path(at, root, p, 4) == Some(Reached(root, true, true));
    ChildEntry(at, root, i4);
    var t3 := at[root][i4].frame;
    assert Path(at, root, p, 3) == Some(Reached(t3, at[root][i4].writable, at[root][i4].user));
    ChildEntry(at, t3, i3);
    var t2 := at[t3][i3].frame;
    assert Path(at, root, p, 2).Some? && Path(at, root, p, 2).value.table == t2;
    ChildEntry(at, t2, i2);
    assert Path(at, root, p, 1).Some? && Path(at, root, p, 1).value.table == at[t2][i2].frame;
  }

  function ViewOf(frame: nat, perm: Perm): View {
    View(frame % 0x100_0000_0000, perm.writable, perm.user, !perm.executable, perm.global)
  }

  // ---- The tree invariant ---------------------------------------------------

  /** Slots that link guest tables; of the root only slot 0 is the guest's. */
  predicate Links(root: nat, level: map<nat, nat>, t: nat, i: nat) {
    t in level && level[t] >= 2 && (t == root ==> i == 0)
  }

  ghost predicate LinkOk(at: map<nat, Table>, level: map<nat, nat>, t: nat, i: nat)
    requires t in at && t in level && i < 512
  {
    at[t][i].present ==>
      && at[t][i] == Inner(at[t][i].frame)
      && at[t][i].frame in level
      && level[at[t][i].frame] + 1 == level[t]
  }

  /** A guest link from slot `i` of table `t` to table `c`. */
  predicate Edge(at: map<nat, Table>, root: nat, level: map<nat, nat>, t: nat, i: nat, c: nat) {
    t in at && i < 512 && Links(root, level, t, i) && at[t][i].present && at[t][i].frame == c
  }

  /** Every guest link goes one level down to a live table. */
  ghost predicate Linked(at: map<nat, Table>, root: nat, level: map<nat, nat>) {
    && root in at && at.Keys == level.Keys && level[root] == 4
    && (forall t :: t in level ==> 1 <= level[t] <= 4 && (level[t] == 4 ==> t == root))
    && (forall t, i, c :: Edge(at, root, level, t, i, c) ==> LinkOk(at, level, t, i))
  }

  /** No table hangs from two links, and every table but the root from one. */
  ghost predicate UniqueParents(at: map<nat, Table>, root: nat, level: map<nat, nat>) {
    && (forall t, i, u, j, c :: Edge(at, root, level, t, i, c) && Edge(at, root, level, u, j, c) ==> t == u && i == j)
    && (forall c :: c in at && c != root ==> exists t, i :: Edge(at, root, level, t, i, c))
  }

  ghost predicate IsTree(at: map<nat, Table>, root: nat, level: map<nat, nat>) {
    Linked(at, root, level) && UniqueParents(at, root, level)
  }

  // ---- Walk lemmas ----------------------------------------------------------

  /** The level-`k` table on a guest path has level `k`, and inner levels never
      restrict: the leaf's flags decide. */
  lemma {:induction false} PathLevel(at: map<nat, Table>, root: nat, level: map<nat, nat>, p: nat, k: nat)
    requires Linked(at, root, level) && p < GUEST_PAGES && 1 <= k <= 4
    ensures
      var r := Path(at, root, p, k);
      r.Some? ==> r.value.table in at && r.value.table in level && level[r.value.table] == k && r.value.writable && r.value.user
    decreases 4 - k
  {
    if k < 4 {
      PathLevel(at, root, level, p, k + 1);
      var up := Path(at, root, p, k + 1);
      if up.Some? {
        var t, i := up.value.table, Index(p, k + 1);
        assert Links(root, level, t, i);
        assert at[t][i].present ==> Edge(at, root, level, t, i, at[t][i].frame);
      }
    }
  }

  lemma AboveStep(p: nat, q: nat, k: nat)
    requires 1 <= k < 4 && Above(p, k + 1) == Above(q, k + 1) && Index(p, k + 1) == Index(q, k + 1)
    ensures Above(p, k) == Above(q, k)
  {
    var x, y := Above(p, k), Above(q, k);
    assert x / 512 == Above(p, k + 1) && x % 512 == Index(p, k + 1);
    assert y / 512 == Above(q, k + 1) && y % 512 == Index(q, k + 1);
  }

  lemma AboveTop(p: nat)
    requires p < GUEST_PAGES
    ensures Above(p, 4) == 0 && Index(p, 4) == 0
  {
  }

  lemma PathEdge(at: map<nat, Table>, root: nat, level: map<nat, nat>, p: nat, k: nat)
    requires Linked(at, root, level) && p < GUEST_PAGES && 1 <= k < 4 && Path(at, root, p, k).Some?
    ensures Path(at, root, p, k + 1).Some?
    ensures Edge(at, root, level, Path(at, root, p, k + 1).value.table, Index(p, k + 1), Path(at, root, p, k).value.table)
  {
    hide Above;
    PathLevel(at, root, level, p, k + 1);
    AboveTop(p);
  }

  /** Two guest pages share their level-`k` table only if they agree on the bits
      above level `k`. */
  lemma {:induction false} PathInjective(at: map<nat, Table>, root: nat, level: map<nat, nat>, p: nat, q: nat, k: nat)
    requires IsTree(at, root, level) && p < GUEST_PAGES && q < GUEST_PAGES && 1 <= k <= 4
    requires Path(at, root, p, k).Some? && Path(at, root, q, k).Some?
    requires Path(at, root, p, k).value.table == Path(at, root, q, k).value.table
    ensures Above(p, k) == Above(q, k)
    decreases 4 - k
  {
    hide Index, Above;
    if k < 4 {
      PathEdge(at, root, level, p, k);
      PathEdge(at, root, level, q, k);
      PathInjective(at, root, level, p, q, k + 1);
      AboveStep(p, q, k);
    } else {
      AboveTop(p);
      AboveTop(q);
    }
  }

  // ---- Linking a fresh table ------------------------------------------------

  /** Tables after hanging a zeroed table `c` from slot `i` of `t`. */
  function Hang(at: map<nat, Table>, t: nat, i: nat, c: nat): map<nat, Table>
    requires t in at && i < 512
  {
    at[t := at[t][i := Inner(c)]][c := Zeroed()]
  }

  lemma HangEdge(at: map<nat, Table>, root: nat, level: map<nat, nat>, t: nat, i: nat, c: nat, u: nat, j: nat, d: nat)
    requires Linked(at, root, level) && t in at && i < 512 && Links(root, level, t, i) && !at[t][i].present && c !in at
    ensures Edge(Hang(at, t, i, c), root, level[c := level[t] - 1], u, j, d)
       <==> (u == t && j == i && d == c) || Edge(at, root, level, u, j, d)
    ensures Edge(at, root, level, u, j, d) ==> d != c && Hang(at, t, i, c)[u][j] == at[u][j] && LinkOk(at, level, u, j)
  {
  }

  lemma HangKeys(at: map<nat, Table>, t: nat, i: nat, c: nat)
    requires t in at && i < 512
    ensures Hang(at, t, i, c).Keys == at.Keys + {c}
  {
  }

  lemma HangKeepsParents(at: map<nat, Table>, root: nat, level: map<nat, nat>, t: nat, i: nat, c: nat)
    requires IsTree(at, root, level) && t in at && i < 512 && Links(root, level, t, i) && !at[t][i].present && c !in at
    ensures UniqueParents(Hang(at, t, i, c), root, level[c := level[t] - 1])
  {
    var at', level' := Hang(at, t, i, c), level[c := level[t] - 1];
    hide Edge, Linked, Links, Hang;
    forall u, j, v, k, d | Edge(at', root, level', u, j, d) && Edge(at', root, level', v, k, d) ensures u == v && j == k {
      HangEdge(at, root, level, t, i, c, u, j, d);
      HangEdge(at, root, level, t, i, c, v, k, d);
    }
    forall d | d in at' && d != root ensures exists u, j :: Edge(at', root, level', u, j, d) {
      HangEdge(at, root, level, t, i, c, t, i, c);
      if d != c {
        HangKeys(at, t, i, c);
        var u, j :| Edge(at, root, level, u, j, d);
        HangEdge(at, root, level, t, i, c, u, j, d);
      }
    }
  }

  lemma HangKeepsTree(at: map<nat, Table>, root: nat, level: map<nat, nat>, t: nat, i: nat, c: nat)
    requires IsTree(at, root, level) && t in at && i < 512 && Links(root, level, t, i) && !at[t][i].present && c !in at
    ensures IsTree(Hang(at, t, i, c), root, level[c := level[t] - 1])
  {
    hide UniqueParents;
    HangKeepsParents(at, root, level, t, i, c);
    var at', level' := Hang(at, t, i, c), level[c := level[t] - 1];
    HangKeys(at, t, i, c);
    forall u, j, d | Edge(at', root, level', u, j, d) ensures LinkOk(at', level', u, j) {
      HangEdge(at, root, level, t, i, c, u, j, d);
    }
  }

  lemma HangChild(at: map<nat, Table>, root: nat, level: map<nat, nat>, t: nat, i: nat, c: nat, u: nat, j: nat)
    requires Linked(at, root, level) && t in at && i < 512 && c !in at && j < 512
    requires !at[t][i].present
    ensures u in at && Links(root, level, u, j) && !(u == t && j == i) ==> Child(Hang(at, t, i, c), u, j) == Child(at, u, j)
    ensures Child(at, t, i) == None && Child(at, c, j) == None && Child(Hang(at, t, i, c), c, j) == None
    ensures Child(Hang(at, t, i, c), t, i) == Some(Inner(c))
  {
    assert u in at && at[u][j].present && Links(root, level, u, j) ==> Edge(at, root, level, u, j, at[u][j].frame);
  }

  lemma PathLinks(at: map<nat, Table>, root: nat, level: map<nat, nat>, p: nat, k: nat)
    requires Linked(at, root, level) && p < GUEST_PAGES && 2 <= k <= 4 && Path(at, root, p, k).Some?
    ensures Path(at, root, p, k).value.table in at && Links(root, level, Path(at, root, p, k).value.table, Index(p, k))
  {
    PathLevel(at, root, level, p, k);
    AboveTop(p);
  }

  /** A fresh table adds nothing to any path but its own empty end. */
  lemma {:induction false} HangKeepsPath(at: map<nat, Table>, root: nat, level: map<nat, nat>, t: nat, i: nat, c: nat, p: nat, k: nat)
    requires Linked(at, root, level) && t in at && i < 512 && !at[t][i].present && c !in at
    requires p < GUEST_PAGES && 1 <= k <= 4
    ensures
      var r, r' := Path(at, root, p, k), Path(Hang(at, t, i, c), root, p, k);
      r' == r || (r.None? && r'.Some? && r'.value.table == c)
    decreases 4 - k
  {
    hide Index, Linked, Child, Hang, Links;
    if k < 4 {
      HangKeepsPath(at, root, level, t, i, c, p, k + 1);
      var j := Index(p, k + 1);
      if Path(at, root, p, k + 1).Some? {
        PathLinks(at, root, level, p, k + 1);
        HangChild(at, root, level, t, i, c, Path(at, root, p, k + 1).value.table, j);
      } else {
        HangChild(at, root, level, t, i, c, t, j);
      }
    }
  }

  lemma HangKeepsWalk(at: map<nat, Table>, root: nat, level: map<nat, nat>, t: nat, i: nat, c: nat, p: nat)
    requires IsTree(at, root, level) && t in at && i < 512 && Links(root, level, t, i) && !at[t][i].present && c !in at
    requires p < GUEST_PAGES
    ensures Walk(Hang(at, t, i, c), root, p) == Walk(at, root, p)
  {
    hide Index, UniqueParents;
    HangKeepsPath(at, root, level, t, i, c, p, 1);
    PathLevel(at, root, level, p, 1);
  }

  // ---- Writing a leaf -------------------------------------------------------

  function SetLeaf(at: map<nat, Table>, t: nat, i: nat, e: Entry): map<nat, Table>
    requires t in at && i < 512
  {
    at[t := at[t][i := e]]
  }

  lemma SetLeafKeepsTree(at: map<nat, Table>, root: nat, level: map<nat, nat>, t: nat, i: nat, e: Entry)
    requires IsTree(at, root, level) && t in at && i < 512 && level[t] == 1
    ensures IsTree(SetLeaf(at, t, i, e), root, level)
  {
    var at' := SetLeaf(at, t, i, e);
    forall u, j, d ensures Edge(at', root, level, u, j, d) <==> Edge(at, root, level, u, j, d) {
    }
    forall u, j, d | Edge(at', root, level, u, j, d) ensures LinkOk(at', level, u, j) {
      assert LinkOk(at, level, u, j);
    }
    forall d | d in at' && d != root ensures exists u, j :: Edge(at', root, level, u, j, d) {
      var u, j :| Edge(at, root, level, u, j, d);
      assert Edge(at', root, level, u, j, d);
    }
  }

  lemma {:induction false} SetLeafKeepsPath(at: map<nat, Table>, root: nat, level: map<nat, nat>, t: nat, i: nat, e: Entry, p: nat, k: nat)
    requires Linked(at, root, level) && t in at && i < 512 && level[t] == 1 && p < GUEST_PAGES && 1 <= k <= 4
    ensures Path(SetLeaf(at, t, i, e), root, p, k) == Path(at, root, p, k)
    decreases 4 - k
  {
    hide Index;
    if k < 4 {
      SetLeafKeepsPath(at, root, level, t, i, e, p, k + 1);
      PathLevel(at, root, level, p, k + 1);
    }
  }

  /** Writing the leaf of page `p` changes the walk of `p` and of no other page. */
  lemma SetLeafWalk(at: map<nat, Table>, root: nat, level: map<nat, nat>, p: nat, e: Entry, q: nat)
    requires IsTree(at, root, level) && p < GUEST_PAGES && q < GUEST_PAGES && Path(at, root, p, 1).Some?
    ensures
      var at' := SetLeaf(at, Path(at, root, p, 1).value.table, Index(p, 1), e);
      && (q != p ==> Walk(at', root, q) == Walk(at, root, q))
      && Walk(at', root, p) == if e.present then Some(View(e.frame, e.writable, e.user, e.noExec, e.global)) else None
  {
    hide Linked, UniqueParents;
    var t := Path(at, root, p, 1).value.table;
    PathLevel(at, root, level, p, 1);
    PathLevel(at, root, level, q, 1);
    SetLeafKeepsPath(at, root, level, t, Index(p, 1), e, p, 1);
    SetLeafKeepsPath(at, root, level, t, Index(p, 1), e, q, 1);
    if q != p && Path(at, root, q, 1).Some? && Path(at, root, q, 1).value.table == t {
      PathInjective(at, root, level, p, q, 1);
    }
  }

  /** Root slots other than the guest's are on no guest path. */
  lemma {:induction false} SlotKeepsPath(at: map<nat, Table>, root: nat, level: map<nat, nat>, slot: nat, e: Entry, p: nat, k: nat)
    requires Linked(at, root, level) && 0 < slot < 512 && p < GUEST_PAGES && 1 <= k <= 4
    ensures Path(SetLeaf(at, root, slot, e), root, p, k) == Path(at, root, p, k)
    decreases 4 - k
  {
    AboveTop(p);
    hide Index;
    if k < 4 {
      SlotKeepsPath(at, root, level, slot, e, p, k + 1);
      PathLevel(at, root, level, p, k + 1);
    }
  }

  lemma SameEdgesKeepTree(at: map<nat, Table>, at': map<nat, Table>, root: nat, level: map<nat, nat>)
    requires IsTree(at, root, level) && at'.Keys == at.Keys
    requires forall u, j, d :: Edge(at', root, level, u, j, d) <==> Edge(at, root, level, u, j, d)
    requires forall u: nat, j: nat, d: nat :: Edge(at, root, level, u, j, d) ==> at'[u][j] == at[u][j]
    ensures IsTree(at', root, level)
  {
    forall u, j, d | Edge(at', root, level, u, j, d) ensures LinkOk(at', level, u, j) {
      assert LinkOk(at, level, u, j);
    }
    forall d | d in at' && d != root ensures exists u, j :: Edge(at', root, level, u, j, d) {
      var u, j :| Edge(at, root, level, u, j, d);
      assert Edge(at', root, level, u, j, d);
    }
  }

  /** All guest pages translate as before. */
  ghost predicate SameWalks(before: map<nat, Table>, after: map<nat, Table>, root: nat) {
    forall q: nat :: q < GUEST_PAGES ==> Walk(after, root, q) == Walk(before, root, q)
  }

  lemma SlotKeepsTree(at: map<nat, Table>, root: nat, level: map<nat, nat>, slot: nat, e: Entry)
    requires IsTree(at, root, level) && 0 < slot < 512
    ensures IsTree(SetLeaf(at, root, slot, e), root, level) && SameWalks(at, SetLeaf(at, root, slot, e), root)
  {
    var at' := SetLeaf(at, root, slot, e);
    forall u, j, d ensures Edge(at', root, level, u, j, d) <==> Edge(at, root, level, u, j, d) {
    }
    SameEdgesKeepTree(at, at', root, level);
    hide Linked, UniqueParents, Index;
    forall p: nat | p < GUEST_PAGES ensures Walk(at', root, p) == Walk(at, root, p) {
      SlotKeepsPath(at, root, level, slot, e, p, 1);
      PathLevel(at, root, level, p, 1);
    }
  }

  // ---- What operations do to all walks --------------------------------------

  /** Page `p` now translates to `v`, every other guest page as before. */
  ghost predicate OnlyWalk(before: map<nat, Table>, after: map<nat, Table>, root: nat, p: nat, v: Option<View>) {
    && Walk(after, root, p) == v
    && forall q: nat :: q < GUEST_PAGES && q != p ==> Walk(after, root, q) == Walk(before, root, q)
  }

  ghost predicate KeepsPaths(before: map<nat, Table>, after: map<nat, Table>, root: nat) {
    forall p: nat, k: nat :: p < GUEST_PAGES && 1 <= k <= 4 && Path(before, root, p, k).Some? ==> Path(after, root, p, k) == Path(before, root, p, k)
  }

  lemma HangKeepsAllWalks(at: map<nat, Table>, root: nat, level: map<nat, nat>, t: nat, i: nat, c: nat)
    requires IsTree(at, root, level) && t in at && i < 512 && Links(root, level, t, i) && !at[t][i].present && c !in at
    ensures SameWalks(at, Hang(at, t, i, c), root) && KeepsPaths(at, Hang(at, t, i, c), root)
  {
    hide Linked, UniqueParents, Index, Hang;
    forall p: nat | p < GUEST_PAGES ensures Walk(Hang(at, t, i, c), root, p) == Walk(at, root, p) {
      HangKeepsWalk(at, root, level, t, i, c, p);
    }
    forall p: nat, k: nat | p < GUEST_PAGES && 1 <= k <= 4 && Path(at, root, p, k).Some?
      ensures Path(Hang(at, t, i, c), root, p, k) == Path(at, root, p, k)
    {
      HangKeepsPath(at, root, level, t, i, c, p, k);
    }
  }

  lemma SetLeafOnlyWalk(at: map<nat, Table>, root: nat, level: map<nat, nat>, p: nat, e: Entry)
    requires IsTree(at, root, level) && p < GUEST_PAGES && Path(at, root, p, 1).Some? && e.present
    ensures Path(at, root, p, 1).value.table in at
    ensures
      var at' := SetLeaf(at, Path(at, root, p, 1).value.table, Index(p, 1), e);
      IsTree(at', root, level) && OnlyWalk(at, at', root, p, Some(View(e.frame, e.writable, e.user, e.noExec, e.global)))
  {
    PathLevel(at, root, level, p, 1);
    var t := Path(at, root, p, 1).value.table;
    assert t in at;
    SetLeafKeepsTree(at, root, level, t, Index(p, 1), e);
    hide Linked, UniqueParents, Index, Walk, Path;
    SetLeafWalk(at, root, level, p, e, p);
    forall q: nat | q < GUEST_PAGES && q != p ensures Walk(SetLeaf(at, t, Index(p, 1), e), root, q) == Walk(at, root, q) {
      SetLeafWalk(at, root, level, p, e, q);
    }
  }

  lemma PresentLink(at: map<nat, Table>, root: nat, level: map<nat, nat>, t: nat, i: nat)
    requires Linked(at, root, level) && t in at && i < 512 && Links(root, level, t, i) && at[t][i].present
    ensures Edge(at, root, level, t, i, at[t][i].frame) && at[t][i] == Inner(at[t][i].frame)
    ensures at[t := at[t][i := at[t][i].(writable := true, user := true)]] == at
  {
    assert Edge(at, root, level, t, i, at[t][i].frame);
    assert LinkOk(at, level, t, i);
    assert at[t][i := at[t][i].(writable := true, user := true)] == at[t];
  }

  lemma EdgeExtendsPath(at: map<nat, Table>, root: nat, level: map<nat, nat>, p: nat, k: nat)
    requires Linked(at, root, level) && p < GUEST_PAGES && 2 <= k <= 4 && Path(at, root, p, k).Some?
    requires exists c :: Edge(at, root, level, Path(at, root, p, k).value.table, Index(p, k), c)
    ensures Path(at, root, p, k - 1).Some?
    ensures forall c :: Edge(at, root, level, Path(at, root, p, k).value.table, Index(p, k), c) ==> Path(at, root, p, k - 1).value.table == c
  {
    hide Index;
    var c :| Edge(at, root, level, Path(at, root, p, k).value.table, Index(p, k), c);
    assert LinkOk(at, level, Path(at, root, p, k).value.table, Index(p, k));
  }

  lemma NoGuestSlot(at: map<nat, Table>, root: nat, p: nat, k: nat)
    requires p < GUEST_PAGES && (root in at ==> !at[root][0].present) && 1 <= k <= 3
    ensures Path(at, root, p, k).None? && Walk(at, root, p).None?
  {
    AboveTop(p);
    assert Path(at, root, p, 3).None?;
    assert Path(at, root, p, 2).None?;
  }

  // ---- The page table object ------------------------------------------------

  /** A per-invocation page table: it owns its PML4 and every inner table it
      allocated, lists them in `owned` and frees them on drop. `live` is the
      allocator's view of the tables it handed out and not yet took back;
      `left` bounds how many more it can hand out (`None`: no bound). */
  class PageTable {
    const root: nat
    var at: map<nat, Table>
    var owned: seq<nat>
    var live: set<nat>
    var nextFrame: nat
    var left: Option<nat>
    ghost var level: map<nat, nat>

    ghost predicate Valid()
      reads this
    {
      && IsTree(at, root, level)
      && NoDuplicates(owned)
      && (forall f :: f in at <==> f in owned)
      && live == at.Keys
      && (forall f :: f in at ==> f < nextFrame)
    }

    /** Copy the kernel half of the current PML4; the guest slot must be empty. */
    constructor (kernel: Table, frame: nat, left: Option<nat>)
      requires !kernel[0].present
      ensures Valid() && root == frame && owned == [frame] && this.left == left
      ensures SameWalks(at, map[], root) && at == map[frame := kernel]
    {
      root := frame;
      at := map[frame := kernel];
      owned := [frame];
      live := {frame};
      nextFrame := frame + 1;
      this.left := left;
      level := map[frame := 4];
      new;
      forall p: nat | p < GUEST_PAGES ensures Walk(at, root, p) == Walk(map[], root, p) {
        NoGuestSlot(at, root, p, 3);
        NoGuestSlot(map[], root, p, 3);
      }
    }

    /** Plant a borrowed PDPT in an empty slot other than the guest's. */
    method InstallBorrowedPdpt(slot: nat, pdpt: nat)
      requires Valid() && 0 < slot < 512 && !at[root][slot].present
      modifies this`at
      ensures Valid() && at == SetLeaf(old(at), root, slot, Inner(pdpt)) && SameWalks(old(at), at, root)
    {
      SlotKeepsTree(at, root, level, slot, Inner(pdpt));
      hide Linked, UniqueParents;
      at := SetLeaf(at, root, slot, Inner(pdpt));
    }

    /** `alloc_table`: a frame not in use for a zeroed table, or nothing. */
    method AllocTable() returns (f: Option<nat>)
      requires Valid()
      modifies this`left, this`nextFrame, this`live
      ensures f.None? ==> old(left) == Some(0) && live == old(live) && nextFrame == old(nextFrame) && left == old(left)
      ensures f.Some? ==> f.value !in at && f.value < nextFrame && live == old(live) + {f.value} && old(nextFrame) <= nextFrame
      ensures old(left).None? ==> left.None?
    {
      hide IsTree;
      if left == Some(0) {
        return None;
      }
      if left.Some? {
        left := Some(left.value - 1);
      }
      f := Some(nextFrame);
      live := live + {nextFrame};
      nextFrame := nextFrame + 1;
    }

    /** The table slot `i` of `t` links, allocating and recording it if the slot
        is empty (`ensure_inner_recorded`). */
    method EnsureInner(t: nat, i: nat) returns (c: Option<nat>)
      requires Valid() && t in at && i < 512 && Links(root, level, t, i)
      modifies this
      ensures Valid() && SameWalks(old(at), at, root) && KeepsPaths(old(at), at, root)
      ensures c.None? ==> old(left) == Some(0)
      ensures c.Some? ==> Edge(at, root, level, t, i, c.value)
      ensures old(left).None? ==> left.None?
    {
      hide Linked, UniqueParents, Index, Path, Walk;
      if at[t][i].present {
        PresentLink(at, root, level, t, i);
        c := Some(at[t][i].frame);
        at := at[t := at[t][i := at[t][i].(writable := true, user := true)]];
        return;
      }
      ghost var before, levels := at, level;
      var f := AllocTable();
      if f.None? {
        return None;
      }
      HangKeepsTree(before, root, levels, t, i, f.value);
      HangKeepsAllWalks(before, root, levels, t, i, f.value);
      HangKeys(before, t, i, f.value);
      c := f;
      owned := owned + [f.value];
      at := Hang(at, t, i, f.value);
      level := level[f.value := level[t] - 1];
    }

    /** Map guest page `p` to `frame`: build the missing tables on its path, then
        write the leaf (`pt_map_leaf`). */
    method MapLeaf(p: nat, frame: nat, perm: Perm) returns (ok: bool)
      requires Valid() && p < GUEST_PAGES
      modifies this
      ensures Valid()
      ensures ok ==> OnlyWalk(old(at), at, root, p, Some(ViewOf(frame, perm)))
      ensures !ok ==> old(left).Some? && SameWalks(old(at), at, root)
      ensures old(left).None? ==> left.None?
    {
      hide Linked, UniqueParents, Index;
      var t := root;
      var k := 4;
      while k > 1
        invariant 1 <= k <= 4 && Valid()
        invariant Path(at, root, p, k).Some? && Path(at, root, p, k).value.table == t
        invariant SameWalks(old(at), at, root)
        invariant old(left).None? ==> left.None?
      {
        PathLinks(at, root, level, p, k);
        var c := EnsureInner(t, Index(p, k));
        if c.None? {
          return false;
        }
        EdgeExtendsPath(at, root, level, p, k);
        t := c.value;
        k := k - 1;
      }
      SetLeafOnlyWalk(at, root, level, p, LeafEntry(frame, perm));
      at := SetLeaf(at, t, Index(p, 1), LeafEntry(frame, perm));
      ok := true;
    }

    /** Set or clear the W bit of an existing leaf; false if there is none
        (`pt_set_leaf_w`). */
    method SetLeafW(p: nat, writable: bool) returns (found: bool)
      requires Valid() && p < GUEST_PAGES
      modifies this`at
      ensures Valid()
      ensures found <==> Walk(old(at), root, p).Some?
      ensures found ==> OnlyWalk(old(at), at, root, p, Some(Walk(old(at), root, p).value.(writable := writable)))
      ensures !found ==> at == old(at)
    {
      hide Linked, UniqueParents, Index, Path;
      var r := Path(at, root, p, 1);
      if r.None? {
        return false;
      }
      PathLevel(at, root, level, p, 1);
      var t := r.value.table;
      var e := at[t][Index(p, 1)];
      if !e.present {
        return false;
      }
      SetLeafOnlyWalk(at, root, level, p, e.(writable := writable));
      at := SetLeaf(at, t, Index(p, 1), e.(writable := writable));
      found := true;
    }

    method Dealloc(f: nat)
      requires f in live
      modifies this`live
      ensures live == old(live) - {f}
    {
      live := live - {f};
    }

    /** Hand every owned table back to the allocator, each exactly once. */
    method Drop()
      requires Valid()
      modifies this`live, this`owned
      ensures live == {} && owned == []
    {
      hide IsTree;
      while |owned| > 0
        invariant NoDuplicates(owned)
        invariant forall f :: f in live <==> f in owned
      {
        Dealloc(owned[0]);
        owned := owned[1..];
      }
    }
  }
}
