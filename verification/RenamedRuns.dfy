/** The linking theorem for a machine that reads and follows code addresses by
    their old names, so that both runs hold equal states (nub-linker `link.rs`). */
module RenamedRuns {
  import opened Prelude
  import opened Chunks
  import opened Inject
  import opened LinkSimulation

  /** New offset of the instruction at old offset `a`. */
  function Place(cs: seq<Chunk>, marks: seq<bool>, a: int): int
    requires |cs| == |marks|
  {
    match IndexAt(cs, a)
    case Some(i) => NewAt(cs, marks, i)
    case None => -1
  }

  /** First old instruction from `i` on that sits at or behind new offset `a`. */
  function Source(cs: seq<Chunk>, marks: seq<bool>, a: int, i: nat): (r: nat)
    requires i <= |cs| == |marks|
    ensures i <= r <= |cs|
    ensures forall k :: i <= k < r ==> NewAt(cs, marks, k) < a
    ensures r < |cs| ==> NewAt(cs, marks, r) >= a
    decreases |cs| - i
  {
    if i == |cs| || NewAt(cs, marks, i) >= a then i else Source(cs, marks, a, i + 1)
  }

  function Unmap(cs: seq<Chunk>, marks: seq<bool>, a: int): int
    requires |cs| == |marks|
  {
    At(cs, Source(cs, marks, a, 0))
  }

  /** Both ends of an instruction are named as in the old program. */
  lemma UnmapEnds(cs: seq<Chunk>, marks: seq<bool>, i: nat)
    requires i < |cs| == |marks|
    ensures Unmap(cs, marks, NewAt(cs, marks, i)) == At(cs, i)
    ensures Unmap(cs, marks, NewAt(cs, marks, i) + Len(cs[i])) == At(cs, i + 1)
  {
    hide NewAt, At;
    var a := NewAt(cs, marks, i);
    var r, t := Source(cs, marks, a, 0), Source(cs, marks, a + Len(cs[i]), 0);
    if r < i {
      NewAtMono(cs, marks, r, i);
    }
    if t < i {
      NewAtMono(cs, marks, t, i);
    }
    if i + 1 < |cs| {
      NewAtMono(cs, marks, i, i + 1);
    }
    assert r == i;
    assert t == i + 1;
  }

  function Relocated<S>(cs: seq<Chunk>, marks: seq<bool>, r: Stepped<S>): Stepped<S>
    requires |cs| == |marks|
  {
    if r.flow.Indirect? then r.(flow := Indirect(Place(cs, marks, r.flow.to))) else r
  }

  function Renamed<S>(cs: seq<Chunk>, marks: seq<bool>, exec: Exec<S>): Exec<S>
    requires |cs| == |marks|
  {
    (c: Chunk, here: int, next: int, s: S) =>
      Relocated(cs, marks, exec(c, Unmap(cs, marks, here), Unmap(cs, marks, next), s))
  }

  ghost function Equal<S>(): (S, S) -> bool {
    (s, t) => s == t
  }

  lemma PlaceRef(cs: seq<Chunk>, marks: seq<bool>, a: int)
    requires |cs| == |marks|
    ensures Ref(cs, marks, a, Place(cs, marks, a))
  {
    hide At;
  }

  /** Any machine, with its code addresses renamed, steps through equal states. */
  lemma RenamedRespects<S(!new)>(cs: seq<Chunk>, marks: seq<bool>, exec: Exec<S>)
    requires |cs| == |marks|
    ensures Respects(cs, marks, Shapes(cs), exec, Renamed(cs, marks, exec), Equal())
  {
    hide At, NewAt, Ref, Place, Unmap, NextRef, Shape;
    var exec' := Renamed(cs, marks, exec);
    forall i: nat, s: S | i < |cs|
      ensures
        var r, r' := OldResult(cs, exec, i, s), NewResult(cs, marks, Shapes(cs), exec', i, s);
        r.s == r'.s && SameFlow(cs, marks, r.flow, r'.flow)
    {
      UnmapEnds(cs, marks, i);
      var r := OldResult(cs, exec, i, s);
      if r.flow.Indirect? {
        PlaceRef(cs, marks, r.flow.to);
      }
    }
  }

  lemma RenamedInert<S(!new)>(cs: seq<Chunk>, marks: seq<bool>, exec: Exec<S>)
    requires |cs| == |marks| && Inert(exec)
    ensures Inert(Renamed(cs, marks, exec))
  {
    hide Unmap;
  }

  /** So for every machine, old runs are matched by runs of the renamed one, which
      hold the same states. */
  lemma RenamedForward<S(!new)>(cs: seq<Chunk>, extra: set<nat>, exec: Exec<S>, st: State<S>, st': State<S>, n: nat)
    returns (m: nat)
    requires Align(cs, extra).Linked? && EdgesOk(cs, Marks(cs, extra)) && Inert(exec)
    requires Matches(Marks(cs, extra), Equal(), st, st')
    ensures m <= 2 * n
    ensures Matches(Marks(cs, extra), Equal(),
                    After(cs, exec, st, n), After(Align(cs, extra).code, Renamed(cs, Marks(cs, extra), exec), st', m))
  {
    hide Align, EdgesOk, Inert, After, Respects, Matches, Renamed;
    var marks := Marks(cs, extra);
    RenamedRespects(cs, marks, exec);
    RenamedInert(cs, marks, exec);
    m := AlignForward(cs, extra, exec, Renamed(cs, marks, exec), Equal(), st, st', n);
  }
}
