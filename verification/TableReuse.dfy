/** Reusing a parked page table for a new CALL (nub-arch-x86 `jit_run.rs`,
    `rearm_cow`) is neutral for bytes and gas. */
module TableReuse {
  import opened Prelude
  import opened Mat
  import opened FlatMemory
  import opened PagedMemory
  import opened DemandPaging

  /** Re-arm at HALT: every private page loses its W bit (`rearm_cow`). */
  function Rearm(l: Layout, s: State): map<nat, Leaf>
    requires Inv(l, s)
  {
    map p | p in s.leaves :: if InData(l, p) && s.overlay[p - l.dataStart].Some? then s.leaves[p].(w := false) else s.leaves[p]
  }

  /** A new CALL zeroes the page state and the unit set. */
  function NewCall(l: Layout, s: State, leaves: map<nat, Leaf>): State {
    s.(leaves := leaves, mat := seq(|l.backing|, _ => NotPresent), roUnits := {})
  }

  lemma RearmKeepsInv(l: Layout, s: State)
    requires Inv(l, s)
    ensures Inv(l, NewCall(l, s, Rearm(l, s))) && Inv(l, NewCall(l, s, map[]))
  {
    hide RangesOk, RangeFor, FramesOk, CodeFramesOk;
    var leaves := Rearm(l, s);
    var s' := NewCall(l, s, leaves);
    forall p | p in leaves ensures LeafOk(l, s'.overlay, s'.mat, p, leaves[p]) {
      assert LeafOk(l, s.overlay, s.mat, p, s.leaves[p]);
    }
    forall p: nat | InData(l, p) ensures
      && MatOk(l, leaves, s'.overlay[p - l.dataStart], s'.mat[p - l.dataStart], p)
      && MatOk(l, map[], s'.overlay[p - l.dataStart], s'.mat[p - l.dataStart], p)
    {
      assert MatOk(l, s.leaves, s.overlay[p - l.dataStart], s.mat[p - l.dataStart], p);
    }
  }

  /** A new CALL on the parked table after the re-arm. */
  function Parked(l: Layout, s: State): (r: State)
    requires Inv(l, s)
    ensures Inv(l, r)
  {
    RearmKeepsInv(l, s);
    NewCall(l, s, Rearm(l, s))
  }

  /** A new CALL on a freshly built table over the same overlay. */
  function Rebuilt(l: Layout, s: State): (r: State)
    requires Inv(l, s)
    ensures Inv(l, r)
  {
    RearmKeepsInv(l, s);
    NewCall(l, s, map[])
  }

  /** The flat memory a new CALL starts from. */
  function FlatOf(l: Layout, s: State): (m: Mem)
    requires Inv(l, s)
  {
    Mem(4096 * l.dataStart, Effective(l, s),
        seq(|l.backing|, i requires 0 <= i < |l.backing| => if Pinned(l, l.dataStart + i) then ReadOnly else ReadWrite),
        seq(|l.backing|, _ => NotPresent), 4096 * l.codeStart, 4096 * l.codeEnd)
  }

  lemma NewCallAgrees(l: Layout, s: State, leaves: map<nat, Leaf>)
    requires Inv(l, s) && (leaves == Rearm(l, s) || leaves == map[])
    ensures Agree(l, NewCall(l, s, leaves), FlatOf(l, s))
  {
    RearmKeepsInv(l, s);
    hide RangesOk, RangeFor, FramesOk, CodeFramesOk, LeavesOk, MatsOk, UnitsOk, SameBytes;
  }

  /** Running on a parked table after the re-arm gives the same replies, the same
      debit and the same effective bytes as running on an empty table. */
  lemma ReuseIsNeutral(l: Layout, s: State, reqs: seq<Request>)
    requires Inv(l, s) && ValidRequests(reqs) && Gap(l)
    ensures
      var parked, rebuilt := Serve(l, Parked(l, s), reqs), Serve(l, Rebuilt(l, s), reqs);
      && parked.replies == rebuilt.replies
      && parked.s.gas == rebuilt.s.gas
      && Effective(l, parked.s) == Effective(l, rebuilt.s)
  {
    hide Inv, SameBytes, Serve, FlatServe;
    var m := FlatOf(l, s);
    NewCallAgrees(l, s, Rearm(l, s));
    NewCallAgrees(l, s, map[]);
    ServeIsFlatServe(l, Parked(l, s), m, reqs);
    ServeIsFlatServe(l, Rebuilt(l, s), m, reqs);
    EffectiveUnique(l, Serve(l, Parked(l, s), reqs).s, FlatServe(l, m, reqs).m.flat);
    EffectiveUnique(l, Serve(l, Rebuilt(l, s), reqs).s, FlatServe(l, m, reqs).m.flat);
  }
}
