/** Runs through the whole of linking: injection and then the fixup of kept
    address pairs (nub-linker `link.rs`).

    `LinkForward` and `LinkBackward` are the run theorems for any machine.
    `TaggedExec` is one: it keeps code pointers apart from numbers. Links produce
    them, an `auipc` produces half of one, the instruction paired with it
    completes it, registers and memory hold either, `jalr` follows them. */
module LinkedRuns {
  import opened Prelude
  import opened Encoding
  import opened Isa
  import opened Chunks
  import opened Inject
  import Interp
  import opened LinkSimulation
  import opened PcRel
  import opened LinkedCalls

  // ---- The linked layout ----------------------------------------------------

  /** Shapes of the old instructions after linking. */
  function LinkedShapes(marks: seq<bool>, out: seq<Chunk>): (r: seq<Chunk>)
    requires forall i :: 0 <= i < |marks| ==> NewIdx(marks, i) < |out|
    ensures |r| == |marks| && forall i :: 0 <= i < |marks| ==> r[i] == Shape(out[NewIdx(marks, i)])
  {
    seq(|marks|, i requires 0 <= i < |marks| => Shape(out[NewIdx(marks, i)]))
  }

  lemma FallthroughKept(c: Chunk, x: Chunk)
    requires Patched(c, x)
    ensures c == FALLTHROUGH <==> x == FALLTHROUGH
  {
    Whole(0x400B);
  }

  lemma {:induction false} PatchedOffsets(a: seq<Chunk>, b: seq<Chunk>, k: nat)
    requires AllPatched(a, b) && k <= |a|
    ensures At(a, k) == At(b, k)
  {
    hide Patched;
    if k > 0 {
      PatchedOffsets(a, b, k - 1);
      PatchedKeeps(a[k - 1], b[k - 1]);
    }
  }

  lemma PatchedLaidAt(cs: seq<Chunk>, marks: seq<bool>, shapes: seq<Chunk>, code: seq<Chunk>, out: seq<Chunk>, i: nat)
    requires i < |cs| == |marks| == |shapes| && LaidAt(cs, marks, shapes, code, i) && AllPatched(code, out)
    ensures NewIdx(marks, i) < |out| && LaidAt(cs, marks, shapes[i := Shape(out[NewIdx(marks, i)])], out, i)
  {
    hide Patched, Shape, IsTerm, Disp, IndexAt, At, NewAt, NewIdx;
    var k := NewIdx(marks, i);
    PatchedKeeps(code[k], out[k]);
    PatchedOffsets(code, out, k);
    if marks[i] {
      FallthroughKept(code[k - 1], out[k - 1]);
    }
  }

  lemma LaidAtShape(cs: seq<Chunk>, marks: seq<bool>, a: seq<Chunk>, b: seq<Chunk>, code: seq<Chunk>, i: nat)
    requires i < |cs| == |marks| == |a| == |b| && a[i] == b[i] && LaidAt(cs, marks, a, code, i)
    ensures LaidAt(cs, marks, b, code, i)
  {
    hide Shape, IsTerm, Disp, IndexAt, At, NewAt, NewIdx;
  }

  lemma LaidFrom(cs: seq<Chunk>, marks: seq<bool>, shapes: seq<Chunk>, code: seq<Chunk>)
    requires |cs| == |marks| == |shapes| && |code| == (if cs == [] then 0 else NewIdx(marks, |cs| - 1) + 1)
    requires forall i :: 0 <= i < |cs| ==> LaidAt(cs, marks, shapes, code, i)
    ensures Laid(cs, marks, shapes, code)
  {
    hide LaidAt;
  }

  /** Changing immediates only leaves the layout as it is. */
  lemma PatchedLaid(cs: seq<Chunk>, marks: seq<bool>, shapes: seq<Chunk>, code: seq<Chunk>, out: seq<Chunk>)
    requires Laid(cs, marks, shapes, code) && AllPatched(code, out)
    ensures |cs| == |marks| && (forall i :: 0 <= i < |marks| ==> NewIdx(marks, i) < |out|)
    ensures Laid(cs, marks, LinkedShapes(marks, out), out)
  {
    hide Laid, LaidAt, Patched, NewIdx, Shape;
    LaidSize(cs, marks, shapes, code);
    forall i | 0 <= i < |marks| ensures NewIdx(marks, i) < |out| {
      LaidHere(cs, marks, shapes, code, i);
      PatchedLaidAt(cs, marks, shapes, code, out, i);
    }
    var linked := LinkedShapes(marks, out);
    forall i | 0 <= i < |cs| ensures LaidAt(cs, marks, linked, out, i) {
      LaidHere(cs, marks, shapes, code, i);
      PatchedLaidAt(cs, marks, shapes, code, out, i);
      LaidAtShape(cs, marks, shapes[i := Shape(out[NewIdx(marks, i)])], linked, out, i);
    }
    LaidFrom(cs, marks, linked, out);
  }

  /** The linked program is laid out by the offset map. */
  lemma LinkLaid(cs: seq<Chunk>, extra: set<nat>, highs: seq<HighRef>, lows: seq<LowRef>)
    requires Link(cs, extra, highs, lows).Some?
    ensures
      var marks, out := Marks(cs, extra), Link(cs, extra, highs, lows).value;
      && (forall i :: 0 <= i < |marks| ==> NewIdx(marks, i) < |out|)
      && Laid(cs, marks, LinkedShapes(marks, out), out)
  {
    hide Align, Woven, Laid, GoodMap, Fixup, RemapOf, AllPatched, NewIdx, Marks;
    var marks, code := Marks(cs, extra), Align(cs, extra).code;
    RemapGood(cs, extra);
    FixupPatched(code, RemapOf(cs, marks), highs, lows);
    var news := AlignWoven(cs, extra);
    WovenLaid(cs, marks, news, code);
    PatchedLaid(cs, marks, Shapes(cs), code, Link(cs, extra, highs, lows).value);
  }

  /** What the old instructions have become, up to branch displacements. */
  function LinkShapes(cs: seq<Chunk>, extra: set<nat>, highs: seq<HighRef>, lows: seq<LowRef>): (r: seq<Chunk>)
    requires Link(cs, extra, highs, lows).Some?
    ensures |r| == |cs| && Laid(cs, Marks(cs, extra), r, Link(cs, extra, highs, lows).value)
  {
    LinkLaid(cs, extra, highs, lows);
    LinkedShapes(Marks(cs, extra), Link(cs, extra, highs, lows).value)
  }

  /** Linking as a whole, forwards: for every relation the machines respect, the
      new one on the fixed-up instructions, `n` old steps are `m <= 2n` new ones. */
  lemma LinkForward<S(!new), T(!new)>(
    cs: seq<Chunk>, extra: set<nat>, highs: seq<HighRef>, lows: seq<LowRef>,
    exec: Exec<S>, exec': Exec<T>, rel: (S, T) -> bool, st: State<S>, st': State<T>, n: nat)
    returns (m: nat)
    requires Link(cs, extra, highs, lows).Some? && EdgesOk(cs, Marks(cs, extra)) && Inert(exec')
    requires Respects(cs, Marks(cs, extra), LinkShapes(cs, extra, highs, lows), exec, exec', rel)
    requires Matches(Marks(cs, extra), rel, st, st')
    ensures m <= 2 * n
    ensures Matches(Marks(cs, extra), rel, After(cs, exec, st, n), After(Link(cs, extra, highs, lows).value, exec', st', m))
  {
    hide Link, LinkShapes, Laid, EdgesOk, Inert, After, Respects, Matches;
    var out, shapes := Link(cs, extra, highs, lows).value, LinkShapes(cs, extra, highs, lows);
    m := OldRunMatches(cs, Marks(cs, extra), shapes, out, exec, exec', rel, st, st', n);
  }

  /** And backwards: every state of a run of the linked program shows one of the
      old run. */
  lemma LinkBackward<S(!new), T(!new)>(
    cs: seq<Chunk>, extra: set<nat>, highs: seq<HighRef>, lows: seq<LowRef>,
    exec: Exec<S>, exec': Exec<T>, rel: (S, T) -> bool, st: State<S>, st': State<T>, m: nat)
    returns (n: nat)
    requires Link(cs, extra, highs, lows).Some? && EdgesOk(cs, Marks(cs, extra)) && Inert(exec')
    requires Respects(cs, Marks(cs, extra), LinkShapes(cs, extra, highs, lows), exec, exec', rel)
    requires Matches(Marks(cs, extra), rel, st, st')
    ensures n <= m
    ensures Shows(Marks(cs, extra), rel, After(cs, exec, st, n), After(Link(cs, extra, highs, lows).value, exec', st', m))
  {
    hide Link, LinkShapes, Laid, EdgesOk, Inert, After, Respects, Matches, Shows;
    var out, shapes := Link(cs, extra, highs, lows).value, LinkShapes(cs, extra, highs, lows);
    n := NewRunMatches(cs, Marks(cs, extra), shapes, out, exec, exec', rel, st, st', m);
  }

  // ---- References in both layouts -------------------------------------------

  predicate IsHigh(highs: seq<HighRef>, a: int) {
    exists h <- highs :: h.auipc == a
  }

  predicate IsLow(lows: seq<LowRef>, a: int) {
    exists r <- lows :: r.lo == a
  }

  /** The instruction at `lo` completes the `auipc` at `auipc`. */
  predicate Completes(lows: seq<LowRef>, lo: int, auipc: int) {
    exists r <- lows :: r.lo == lo && r.auipc == auipc
  }

  /** Every offset a reference names is an instruction start. */
  predicate Resolved(cs: seq<Chunk>, highs: seq<HighRef>, lows: seq<LowRef>) {
    && (forall h <- highs :: IndexAt(cs, h.auipc).Some? && IndexAt(cs, h.target).Some?)
    && (forall r <- lows :: IndexAt(cs, r.lo).Some? && IndexAt(cs, r.auipc).Some? && IndexAt(cs, r.target).Some?)
  }

  /** New offset of an instruction start. */
  function NewOf(cs: seq<Chunk>, marks: seq<bool>, a: nat): nat
    requires |cs| == |marks|
  {
    match IndexAt(cs, a)
    case Some(i) => NewAt(cs, marks, i)
    case None => a
  }

  function MovedHighs(cs: seq<Chunk>, marks: seq<bool>, highs: seq<HighRef>): (r: seq<HighRef>)
    requires |cs| == |marks|
    ensures |r| == |highs|
    ensures forall k :: 0 <= k < |r| ==>
      r[k] == HighRef(NewOf(cs, marks, highs[k].auipc), NewOf(cs, marks, highs[k].target))
  {
    seq(|highs|, k requires 0 <= k < |highs| => HighRef(NewOf(cs, marks, highs[k].auipc), NewOf(cs, marks, highs[k].target)))
  }

  function MovedLow(cs: seq<Chunk>, marks: seq<bool>, r: LowRef): LowRef
    requires |cs| == |marks|
  {
    LowRef(NewOf(cs, marks, r.lo), NewOf(cs, marks, r.auipc), NewOf(cs, marks, r.target))
  }

  function MovedLows(cs: seq<Chunk>, marks: seq<bool>, lows: seq<LowRef>): (r: seq<LowRef>)
    requires |cs| == |marks|
    ensures |r| == |lows| && forall k :: 0 <= k < |r| ==> r[k] == MovedLow(cs, marks, lows[k])
  {
    seq(|lows|, k requires 0 <= k < |lows| => MovedLow(cs, marks, lows[k]))
  }

  lemma NewOfAt(cs: seq<Chunk>, marks: seq<bool>, a: nat, i: nat)
    requires i < |cs| == |marks| && IndexAt(cs, a).Some?
    ensures NewOf(cs, marks, a) == NewAt(cs, marks, i) <==> a == At(cs, i)
  {
    hide IndexAt, At, NewAt;
    IndexUnique(cs, i);
    var j := IndexAt(cs, a).value;
    if NewAt(cs, marks, j) == NewAt(cs, marks, i) {
      NewApart(cs, marks, j, i);
    }
  }

  /** The moved references name the moved instructions. */
  lemma MovedHigh(cs: seq<Chunk>, marks: seq<bool>, highs: seq<HighRef>, i: nat)
    requires i < |cs| == |marks| && Resolved(cs, highs, [])
    ensures IsHigh(MovedHighs(cs, marks, highs), NewAt(cs, marks, i)) <==> IsHigh(highs, At(cs, i))
  {
    hide IndexAt, At, NewAt, NewOf;
    var moved := MovedHighs(cs, marks, highs);
    forall k | 0 <= k < |highs| ensures moved[k].auipc == NewAt(cs, marks, i) <==> highs[k].auipc == At(cs, i) {
      NewOfAt(cs, marks, highs[k].auipc, i);
    }
    if IsHigh(moved, NewAt(cs, marks, i)) {
      var k :| 0 <= k < |moved| && moved[k].auipc == NewAt(cs, marks, i);
      assert highs[k] in highs;
    }
    if IsHigh(highs, At(cs, i)) {
      var k :| 0 <= k < |highs| && highs[k].auipc == At(cs, i);
      assert moved[k] in moved;
    }
  }

  lemma MovedLowAt(cs: seq<Chunk>, marks: seq<bool>, lows: seq<LowRef>, i: nat, j: nat)
    requires i < |cs| == |marks| && j < |cs| && Resolved(cs, [], lows)
    ensures IsLow(MovedLows(cs, marks, lows), NewAt(cs, marks, i)) <==> IsLow(lows, At(cs, i))
    ensures Completes(MovedLows(cs, marks, lows), NewAt(cs, marks, i), NewAt(cs, marks, j))
       <==> Completes(lows, At(cs, i), At(cs, j))
  {
    hide IndexAt, At, NewAt, NewOf;
    var moved := MovedLows(cs, marks, lows);
    forall k | 0 <= k < |lows|
      ensures moved[k].lo == NewAt(cs, marks, i) <==> lows[k].lo == At(cs, i)
      ensures moved[k].auipc == NewAt(cs, marks, j) <==> lows[k].auipc == At(cs, j)
    {
      NewOfAt(cs, marks, lows[k].lo, i);
      NewOfAt(cs, marks, lows[k].auipc, j);
    }
    if r :| r in moved && r.lo == NewAt(cs, marks, i) {
      var k :| 0 <= k < |moved| && moved[k] == r;
      assert lows[k] in lows;
    }
    if r :| r in lows && r.lo == At(cs, i) {
      var k :| 0 <= k < |lows| && lows[k] == r;
      assert moved[k] in moved;
    }
    if r :| r in moved && r.lo == NewAt(cs, marks, i) && r.auipc == NewAt(cs, marks, j) {
      var k :| 0 <= k < |moved| && moved[k] == r;
      assert lows[k] in lows;
    }
    if r :| r in lows && r.lo == At(cs, i) && r.auipc == At(cs, j) {
      var k :| 0 <= k < |lows| && lows[k] == r;
      assert moved[k] in moved;
    }
  }

  // ---- What linking made of each instruction --------------------------------

  lemma RemapIn(cs: seq<Chunk>, marks: seq<bool>, a: nat)
    requires |cs| == |marks|
    ensures a in RemapOf(cs, marks) <==> IndexAt(cs, a).Some?
    ensures a in RemapOf(cs, marks) ==> RemapOf(cs, marks)[a] == NewOf(cs, marks, a)
  {
    hide At, NewAt, IndexAt;
    if IndexAt(cs, a).Some? {
      AtMono(cs, IndexAt(cs, a).value, |cs|);
    }
  }

  /** A successful link has resolved every reference. */
  lemma LinkResolves(cs: seq<Chunk>, extra: set<nat>, highs: seq<HighRef>, lows: seq<LowRef>)
    requires Link(cs, extra, highs, lows).Some? && Distinct(highs, lows)
    ensures Resolved(cs, highs, lows)
  {
    hide Align, GoodMap, RemapOf, FixHighs, FixLows, IndexAt, At, Marks, Opcode;
    var marks, code := Marks(cs, extra), Align(cs, extra).code;
    RemapGood(cs, extra);
    var remap := RemapOf(cs, marks);
    forall h <- highs ensures IndexAt(cs, h.auipc).Some? && IndexAt(cs, h.target).Some? {
      var i :| 0 <= i < |highs| && highs[i] == h;
      HighsHere(code, remap, highs, |highs|, i);
      RemapIn(cs, marks, h.auipc);
      RemapIn(cs, marks, h.target);
    }
    var c := FixHighs(code, remap, highs, |highs|).value;
    forall r <- lows ensures IndexAt(cs, r.lo).Some? && IndexAt(cs, r.auipc).Some? && IndexAt(cs, r.target).Some? {
      var i :| 0 <= i < |lows| && lows[i] == r;
      LowsHere(code, c, remap, lows, |lows|, i);
      RemapIn(cs, marks, r.lo);
      RemapIn(cs, marks, r.auipc);
      RemapIn(cs, marks, r.target);
    }
  }

  /** Where the fixup finds an instruction. */
  lemma SpotAt(cs: seq<Chunk>, extra: set<nat>, a: nat)
    requires Align(cs, extra).Linked? && IndexAt(cs, a).Some?
    ensures
      var marks := Marks(cs, extra);
      a in RemapOf(cs, marks) && IndexAt(Align(cs, extra).code, RemapOf(cs, marks)[a]) == Some(NewIdx(marks, IndexAt(cs, a).value))
  {
    hide Align, Woven, IndexAt, At, NewAt, NewIdx, RemapOf, Marks;
    var marks := Marks(cs, extra);
    var news := AlignWoven(cs, extra);
    RemapIn(cs, marks, a);
    NewIndex(cs, marks, news, Align(cs, extra).code, IndexAt(cs, a).value);
  }

  lemma {:induction false} NewIdxMono(marks: seq<bool>, i: nat, j: nat)
    requires i < j < |marks|
    ensures NewIdx(marks, i) < NewIdx(marks, j)
    decreases j
  {
    if i + 1 < j {
      NewIdxMono(marks, i, j - 1);
    }
  }

  lemma SpotElsewhere(cs: seq<Chunk>, extra: set<nat>, a: nat, i: nat)
    requires Align(cs, extra).Linked? && IndexAt(cs, a).Some? && i < |cs| && a != At(cs, i)
    ensures
      var marks := Marks(cs, extra);
      && a in RemapOf(cs, marks)
      && IndexAt(Align(cs, extra).code, RemapOf(cs, marks)[a]) == Some(NewIdx(marks, IndexAt(cs, a).value))
      && NewIdx(marks, IndexAt(cs, a).value) != NewIdx(marks, i)
  {
    hide Align, IndexAt, At, NewIdx, RemapOf, Marks;
    SpotAt(cs, extra, a);
    var marks, j := Marks(cs, extra), IndexAt(cs, a).value;
    if i < j {
      NewIdxMono(marks, i, j);
    } else {
      NewIdxMono(marks, j, i);
    }
  }

  /** Before the fixup the shapes are the old ones. */
  lemma AlignedShape(cs: seq<Chunk>, extra: set<nat>, i: nat)
    requires Align(cs, extra).Linked? && i < |cs|
    ensures
      var k := NewIdx(Marks(cs, extra), i);
      k < |Align(cs, extra).code| && Shape(Align(cs, extra).code[k]) == Shape(cs[i])
  {
    hide Align, Woven, Laid, Shape, IsTerm, Disp, IndexAt, At, NewAt, NewIdx, Marks;
    var marks, code := Marks(cs, extra), Align(cs, extra).code;
    var news := AlignWoven(cs, extra);
    WovenLaid(cs, marks, news, code);
    LaidHere(cs, marks, Shapes(cs), code, i);
  }

  /** The linked code at the position of old instruction `i`. */
  lemma LinkShapeAt(cs: seq<Chunk>, extra: set<nat>, highs: seq<HighRef>, lows: seq<LowRef>, i: nat)
    requires Link(cs, extra, highs, lows).Some? && i < |cs|
    ensures
      var k, out := NewIdx(Marks(cs, extra), i), Link(cs, extra, highs, lows).value;
      k < |out| && LinkShapes(cs, extra, highs, lows)[i] == Shape(out[k])
  {
    hide Link, Laid, Shape, NewIdx, Marks;
    LinkLaid(cs, extra, highs, lows);
  }

  /** No low fix at the position of `i`. */
  lemma NoLowAt(cs: seq<Chunk>, extra: set<nat>, highs: seq<HighRef>, lows: seq<LowRef>, i: nat)
    requires Link(cs, extra, highs, lows).Some? && Distinct(highs, lows) && i < |cs| && !IsLow(lows, At(cs, i))
    ensures
      var marks, code := Marks(cs, extra), Align(cs, extra).code;
      var k, remap := NewIdx(marks, i), RemapOf(cs, marks);
      && k < |code| && GoodMap(code, remap) && FixHighs(code, remap, highs, |highs|).Some?
      && Link(cs, extra, highs, lows).value[k] == FixHighs(code, remap, highs, |highs|).value[k]
  {
    hide Align, GoodMap, RemapOf, FixHighs, FixLows, IndexAt, At, Marks, Opcode, NewIdx, Shape;
    var marks, code := Marks(cs, extra), Align(cs, extra).code;
    var k, remap := NewIdx(marks, i), RemapOf(cs, marks);
    RemapGood(cs, extra);
    AlignedShape(cs, extra, i);
    LinkResolves(cs, extra, highs, lows);
    var c := FixHighs(code, remap, highs, |highs|).value;
    forall j | 0 <= j < |lows| && LowSpot(code, remap, lows[j]).Some? ensures LowSpot(code, remap, lows[j]).value.k != k {
      assert lows[j] in lows;
      SpotElsewhere(cs, extra, lows[j].lo, i);
    }
    LowsElsewhere(code, c, remap, lows, |lows|, k);
  }

  lemma LinkedAligned(cs: seq<Chunk>, extra: set<nat>, highs: seq<HighRef>, lows: seq<LowRef>)
    requires Link(cs, extra, highs, lows).Some?
    ensures Align(cs, extra).Linked?
  {
    hide Align, Fixup;
  }

  /** An instruction no reference names is unchanged. */
  lemma Unnamed(cs: seq<Chunk>, extra: set<nat>, highs: seq<HighRef>, lows: seq<LowRef>, i: nat)
    requires Link(cs, extra, highs, lows).Some? && Distinct(highs, lows) && i < |cs|
    requires !IsHigh(highs, At(cs, i)) && !IsLow(lows, At(cs, i))
    ensures LinkShapes(cs, extra, highs, lows)[i] == Shape(cs[i])
  {
    hide Link, LinkShapes, Align, GoodMap, RemapOf, FixHighs, IndexAt, At, Marks, NewIdx, Shape;
    LinkedAligned(cs, extra, highs, lows);
    var marks, code := Marks(cs, extra), Align(cs, extra).code;
    var k, remap := NewIdx(marks, i), RemapOf(cs, marks);
    NoLowAt(cs, extra, highs, lows, i);
    LinkResolves(cs, extra, highs, lows);
    forall j | 0 <= j < |highs| && HighSpot(code, remap, highs[j]).Some? ensures HighSpot(code, remap, highs[j]).value.k != k {
      assert highs[j] in highs;
      SpotElsewhere(cs, extra, highs[j].auipc, i);
    }
    HighsElsewhere(code, remap, highs, |highs|, k);
    AlignedShape(cs, extra, i);
    LinkShapeAt(cs, extra, highs, lows, i);
  }

  lemma NoDisp(w: u32)
    requires w % 4 == 3 && Opcode(w) in {OP_AUIPC, 0x67, 0x13}
    ensures Disp(Long(w)) == None
  {
    hide Opcode;
  }

  lemma PlainShape(c: Chunk)
    requires Disp(c) == None
    ensures Shape(c) == c
  {
    hide Field, Above, ImmJ, ImmB, ImmCJ, ImmCB, EncodeJ, EncodeB, EncodeCJ, EncodeCB;
  }

  lemma ShortShape(c: Chunk)
    ensures Shape(c).Short? == c.Short?
  {
    hide Field, Above, EncodeJ, EncodeB, EncodeCJ, EncodeCB;
  }

  lemma HighWord(c: Chunk, last: bool, disp: int, c0: Chunk)
    requires FixHigh(c, last, disp).Some? && Shape(c) == Shape(c0)
    ensures
      var x, s := Shape(FixHigh(c, last, disp).value), Shape(c0);
      if s.Long? && Opcode(s.w) == OP_AUIPC then x == Long(UpperWord(s.w, disp, OP_AUIPC)) else x == s && s.Short?
  {
    hide Shape, Opcode, UpperWord, Disp;
    if c.Long? {
      var x := FixHigh(c, last, disp).value;
      HighPatched(c, last, disp);
      NoDisp(c.w);
      NoDisp(x.w);
      PlainShape(c);
      PlainShape(x);
    } else {
      ShortShape(c);
    }
  }

  /** A named `auipc` holds the high part of its new displacement; anything else
      an `auipc` reference names is unchanged. */
  lemma NamedHigh(cs: seq<Chunk>, extra: set<nat>, highs: seq<HighRef>, lows: seq<LowRef>, i: nat, h: HighRef)
    requires Link(cs, extra, highs, lows).Some? && Distinct(highs, lows) && i < |cs|
    requires h in highs && h.auipc == At(cs, i) && !IsLow(lows, At(cs, i))
    ensures
      var marks, c, x := Marks(cs, extra), Shape(cs[i]), LinkShapes(cs, extra, highs, lows)[i];
      if c.Long? && Opcode(c.w) == OP_AUIPC
      then x == Long(UpperWord(c.w, NewOf(cs, marks, h.target) - NewAt(cs, marks, i), OP_AUIPC))
      else x == c && c.Short?
  {
    hide Link, LinkShapes, Align, GoodMap, RemapOf, FixHighs, IndexAt, At, NewAt, Marks, NewIdx, Shape, Opcode, UpperWord, Disp;
    LinkedAligned(cs, extra, highs, lows);
    var marks, code := Marks(cs, extra), Align(cs, extra).code;
    var k, remap := NewIdx(marks, i), RemapOf(cs, marks);
    NoLowAt(cs, extra, highs, lows, i);
    LinkResolves(cs, extra, highs, lows);
    AlignedShape(cs, extra, i);
    LinkShapeAt(cs, extra, highs, lows, i);
    IndexUnique(cs, i);
    SpotAt(cs, extra, h.auipc);
    RemapIn(cs, marks, h.auipc);
    RemapIn(cs, marks, h.target);
    var j :| 0 <= j < |highs| && highs[j] == h;
    HighsHere(code, remap, highs, |highs|, j);
    HighWord(code[k], k + 1 == |code|, HighSpot(code, remap, h).value.disp, cs[i]);
  }

  lemma ShapeOpcode(c: Chunk)
    ensures c.Long? ==> Shape(c).Long? && Opcode(Shape(c).w) == Opcode(c.w)
  {
    hide Field, Above, EncodeJ, EncodeB, EncodeCJ, EncodeCB, Opcode;
    if c.Long? {
      KeepsJ(c.w, 0);
      KeepsB(c.w, 0);
    }
  }

  lemma LowWord(c: Chunk, d: Chunk, disp: int, c0: Chunk)
    requires Patched(c, d) && Shape(c) == Shape(c0) && (c.Long? && Opcode(c.w) != OP_AUIPC ==> d == c)
    ensures
      var x, s := Shape(FixLow(d, disp)), Shape(c0);
      if s.Long? && Opcode(s.w) in {0x67, 0x13} then x == Long(PatchI(s.w, Lo(disp))) else !(x.Long? && Opcode(x.w) in {0x67, 0x13})
  {
    hide Shape, Opcode, PatchI, PatchS, Lo, Disp;
    LowPatched(d, disp);
    var s, x := Shape(c0), FixLow(d, disp);
    ShortShape(c);
    ShortShape(x);
    ShapeOpcode(c);
    ShapeOpcode(x);
    if s.Long? && Opcode(s.w) in {0x67, 0x13} {
      NoDisp(c.w);
      PlainShape(c);
      NoDisp(x.w);
      PlainShape(x);
    }
  }

  /** A named `jalr` or `addi` holds the low part of its new displacement; nothing
      else becomes one. */
  lemma NamedLow(cs: seq<Chunk>, extra: set<nat>, highs: seq<HighRef>, lows: seq<LowRef>, i: nat, r: LowRef)
    requires Link(cs, extra, highs, lows).Some? && Distinct(highs, lows) && i < |cs| && r in lows && r.lo == At(cs, i)
    ensures
      var marks, c, x := Marks(cs, extra), Shape(cs[i]), LinkShapes(cs, extra, highs, lows)[i];
      if c.Long? && Opcode(c.w) in {0x67, 0x13}
      then x == Long(PatchI(c.w, Lo(NewOf(cs, marks, r.target) - NewOf(cs, marks, r.auipc))))
      else !(x.Long? && Opcode(x.w) in {0x67, 0x13})
  {
    hide Align, GoodMap, RemapOf, FixHighs, FixLows, IndexAt, At, NewAt, Marks, NewIdx, Shape, Opcode, PatchI, Lo, Disp, Patched,
         LinkShapes, NewOf;
    var marks, code := Marks(cs, extra), Align(cs, extra).code;
    var k, remap := NewIdx(marks, i), RemapOf(cs, marks);
    RemapGood(cs, extra);
    LinkResolves(cs, extra, highs, lows);
    AlignedShape(cs, extra, i);
    LinkShapeAt(cs, extra, highs, lows, i);
    IndexUnique(cs, i);
    SpotAt(cs, extra, r.lo);
    RemapIn(cs, marks, r.auipc);
    RemapIn(cs, marks, r.target);
    var c := FixHighs(code, remap, highs, |highs|).value;
    var j :| 0 <= j < |lows| && lows[j] == r;
    LowsHere(code, c, remap, lows, |lows|, j);
    HighsPatched(code, remap, highs, |highs|);
    if code[k].Long? && Opcode(code[k].w) != OP_AUIPC {
      HighsMiss(code, remap, highs, k);
    }
    LowWord(code[k], c[k], LowSpot(code, remap, r).value.disp, cs[i]);
  }

  // ---- Code pointers as a kind of their own ---------------------------------

  /** A number, a code pointer, or what the `auipc` at an offset has left of one. */
  datatype Value = Num(n: int) | Code(at: int) | Part(auipc: int, addr: u32)

  datatype Tagged = Tagged(reg: nat -> Value, mem: int -> Value)

  function Read(s: Tagged, x: nat): Value {
    if x == 0 then Num(0) else s.reg(x)
  }

  function Write(s: Tagged, x: nat, v: Value): Tagged {
    s.(reg := (y: nat) => if y == x then v else s.reg(y))
  }

  /** What arithmetic and comparisons do, as any functions of the numbers, and
      which register an instruction copies if it is a copy. */
  datatype Ops = Ops(alu: (Inst, seq<int>) -> int, taken: (Cond, int, int) -> bool, copies: Inst -> Option<nat>)

  /** One instruction no reference names. Arithmetic on a code pointer, other than
      a copy, stops the machine, and so does memory access that is not by whole
      cells. */
  function Run(i: Inst, ops: Ops, here: int, next: int, s: Tagged): Stepped<Tagged> {
    match i
    case Jal(rd, _) => Stepped(Write(s, rd, Code(next)), Take)
    case Jalr(rd, rs1, imm) =>
      var to := Read(s, rs1);
      if to.Code? && imm == 0 then Stepped(Write(s, rd, Code(next)), Indirect(to.at)) else Stepped(s, Halt)
    case Branch(cond, rs1, rs2, _) =>
      var a, b := Read(s, rs1), Read(s, rs2);
      if a.Num? && b.Num? then Stepped(s, if ops.taken(cond, a.n, b.n) then Take else Fall) else Stepped(s, Halt)
    case Auipc(rd, imm) => if imm == 0 then Stepped(Write(s, rd, Code(here)), Fall) else Stepped(s, Halt)
    case Lui(rd, imm) => Stepped(Write(s, rd, Num(imm)), Fall)
    case Unary(_, rd, rs1, _) =>
      var a := Read(s, rs1);
      if ops.copies(i).Some? then Stepped(Write(s, rd, Read(s, ops.copies(i).value)), Fall)
      else if a.Num? then Stepped(Write(s, rd, Num(ops.alu(i, [a.n]))), Fall)
      else Stepped(s, Halt)
    case Binary(_, rd, rs1, rs2, _) =>
      var a, b := Read(s, rs1), Read(s, rs2);
      if ops.copies(i).Some? then Stepped(Write(s, rd, Read(s, ops.copies(i).value)), Fall)
      else if a.Num? && b.Num? then Stepped(Write(s, rd, Num(ops.alu(i, [a.n, b.n]))), Fall)
      else Stepped(s, Halt)
    case Load(rd, rs1, imm, width, _) =>
      var base := Read(s, rs1);
      if width == 8 && base.Num? then Stepped(Write(s, rd, s.mem(base.n + imm)), Fall) else Stepped(s, Halt)
    case Store(rs1, rs2, imm, width) =>
      var base, v := Read(s, rs1), Read(s, rs2);
      if width == 8 && base.Num? then Stepped(s.(mem := a => if a == base.n + imm then v else s.mem(a)), Fall)
      else Stepped(s, Halt)
    case Fence => Stepped(s, Fall)
    case Fallthrough => Stepped(s, Fall)
    case _ => Stepped(s, Halt)
  }

  /** The fields of an I-type word. */
  datatype IType = IType(rd: nat, funct3: nat, rs1: nat, imm: int) {
    /** As a `jalr` or `addi` on the registers there are. */
    predicate Legal() {
      funct3 == 0 && rd < 16 && rs1 < 16
    }
  }

  function ITypeOf(w: u32): IType {
    IType(Field(w, 0x80, 0x20), Field(w, 0x1000, 8), Field(w, 0x8000, 0x20), ImmI(w))
  }

  /** A `jalr` or `addi` a low reference names: it completes what its `auipc` left,
      and jumps there or leaves the code pointer. */
  function Complete(c: Chunk, lows: seq<LowRef>, here: int, next: int, s: Tagged): Stepped<Tagged> {
    if !(c.Long? && Opcode(c.w) in {0x67, 0x13}) || !ITypeOf(c.w).Legal() then Stepped(s, Halt)
    else
      var f := ITypeOf(c.w);
      var v := Read(s, f.rs1);
      if !(v.Part? && Completes(lows, here, v.auipc)) then Stepped(s, Halt)
      else if Opcode(c.w) == 0x67 then Stepped(Write(s, f.rd, Code(next)), Indirect(U32(v.addr + f.imm)))
      else Stepped(Write(s, f.rd, Code(U32(v.addr + f.imm))), Fall)
  }

  /** The machine, given the references by their offsets in the program it runs. */
  function TaggedStep(
    c: Chunk, plain: PlainDecoder, ops: Ops, highs: seq<HighRef>, lows: seq<LowRef>, here: int, next: int, s: Tagged)
    : Stepped<Tagged>
  {
    if c == FALLTHROUGH then Stepped(s, Fall)
    else if IsLow(lows, here) then Complete(c, lows, here, next, s)
    else if IsHigh(highs, here) && c.Long? && Opcode(c.w) == OP_AUIPC && Field(c.w, 0x80, 0x20) < 16 then
      Stepped(Write(s, Field(c.w, 0x80, 0x20), Part(here, U32(here + UpperImm(c.w)))), Fall)
    else Run(InstOf(c, plain), ops, here, next, s)
  }

  function TaggedExec(plain: PlainDecoder, ops: Ops, highs: seq<HighRef>, lows: seq<LowRef>): Exec<Tagged> {
    (c: Chunk, here: int, next: int, s: Tagged) => TaggedStep(c, plain, ops, highs, lows, here, next, s)
  }

  // ---- The relation ---------------------------------------------------------

  /** The link in question. */
  datatype Job = Job(cs: seq<Chunk>, extra: set<nat>, highs: seq<HighRef>, lows: seq<LowRef>)

  predicate PairOk(j: Job, r: LowRef) {
    var a, l := IndexAt(j.cs, r.auipc), IndexAt(j.cs, r.lo);
    && HighRef(r.auipc, r.target) in j.highs
    && (a.Some? && l.Some? && j.cs[a.value].Long? && j.cs[l.value].Long? && Opcode(j.cs[l.value].w) in {0x67, 0x13} ==>
          U32(r.auipc + UpperImm(j.cs[a.value].w) + ImmI(j.cs[l.value].w)) == r.target)
  }

  /** It succeeds, names each instruction once, and stays below 4 GiB; and the old
      pairs are linked for the old layout: each low part completes an `auipc`
      reference to the same target, which the two immediates add up to. */
  predicate Sound(j: Job) {
    && Link(j.cs, j.extra, j.highs, j.lows).Some? && Distinct(j.highs, j.lows)
    && (forall i :: 0 <= i < |j.cs| ==> NewAt(j.cs, Marks(j.cs, j.extra), i) < 0x1_0000_0000)
    && (forall r <- j.lows :: PairOk(j, r))
  }

  function MarksOf(j: Job): (marks: seq<bool>)
    ensures |marks| == |j.cs|
  {
    Marks(j.cs, j.extra)
  }

  /** What the two programs' `auipc` at old instruction `i` leave. */
  predicate Halves(j: Job, i: nat, x: u32, y: u32)
    requires Sound(j) && i < |j.cs|
  {
    var c, c' := Shape(j.cs[i]), LinkShapes(j.cs, j.extra, j.highs, j.lows)[i];
    && IsHigh(j.highs, At(j.cs, i)) && !IsLow(j.lows, At(j.cs, i))
    && c.Long? && Opcode(c.w) == OP_AUIPC && c'.Long?
    && x == U32(At(j.cs, i) + UpperImm(c.w)) && y == U32(NewAt(j.cs, MarksOf(j), i) + UpperImm(c'.w))
  }

  /** Equal numbers, code pointers related by the offset map, or the halves the
      same `auipc` leaves in either program. */
  predicate Like(j: Job, v: Value, w: Value)
    requires Sound(j)
  {
    match v
    case Num(_) => w == v
    case Code(a) => w.Code? && Ref(j.cs, MarksOf(j), a, w.at)
    case Part(a, x) =>
      var i := IndexAt(j.cs, a);
      w.Part? && i.Some? && w.auipc == NewAt(j.cs, MarksOf(j), i.value) && Halves(j, i.value, x, w.addr)
  }

  ghost predicate Same(j: Job, s: Tagged, t: Tagged)
    requires Sound(j)
  {
    && (forall x :: Like(j, s.reg(x), t.reg(x)))
    && (forall a :: Like(j, s.mem(a), t.mem(a)))
  }

  ghost function SameTagged(j: Job): (Tagged, Tagged) -> bool
    requires Sound(j)
  {
    (s, t) => Same(j, s, t)
  }

  ghost predicate Agree(j: Job, r: Stepped<Tagged>, r': Stepped<Tagged>)
    requires Sound(j)
  {
    Same(j, r.s, r'.s) && SameFlow(j.cs, MarksOf(j), r.flow, r'.flow)
  }

  // ---- The machine respects the relation ------------------------------------

  lemma ReadLike(j: Job, s: Tagged, t: Tagged, x: nat)
    requires Sound(j) && Same(j, s, t)
    ensures Like(j, Read(s, x), Read(t, x))
  {
    hide Sound, Ref, Halves;
  }

  lemma WriteLike(j: Job, s: Tagged, t: Tagged, x: nat, v: Value, w: Value)
    requires Sound(j) && Same(j, s, t) && Like(j, v, w)
    ensures Same(j, Write(s, x, v), Write(t, x, w))
  {
    hide Sound, Like;
  }

  /** An unnamed instruction keeps the relation, given related own addresses and,
      where it links, related next addresses. */
  lemma RunLike(j: Job, i: Inst, ops: Ops, here: int, next: int, here': int, next': int, s: Tagged, t: Tagged)
    requires Sound(j) && Same(j, s, t)
    requires Ref(j.cs, MarksOf(j), here, here') && (i.Jal? || i.Jalr? ==> Ref(j.cs, MarksOf(j), next, next'))
    ensures Agree(j, Run(i, ops, here, next, s), Run(i, ops, here', next', t))
  {
    hide Sound, Ref, Halves;
  }

  /** Only what the linker calls a terminator leaves a link. */
  lemma LinksAreTerms(c: Chunk, plain: PlainDecoder)
    ensures InstOf(c, plain).Jal? || InstOf(c, plain).Jalr? ==> IsTerm(c)
  {
    hide Field, Above, ImmJ, ImmB, ImmI, ImmCJ, ImmCB, UpperImm;
  }

  lemma ShapeTerm(c: Chunk)
    ensures IsTerm(Shape(c)) == IsTerm(c)
  {
    hide Field, Above, ImmJ, ImmB, ImmCJ, ImmCB, EncodeJ, EncodeB, EncodeCJ, EncodeCB;
    match c {
      case Short(h) =>
        KeepsShort(h, 0);
        ShortBranch(h);
        if Shape(c).Short? {
          ShortBranch(Shape(c).h);
        }
      case Long(w) =>
        KeepsJ(w, 0);
        KeepsB(w, 0);
    }
  }

  lemma OwnRef(cs: seq<Chunk>, marks: seq<bool>, i: nat)
    requires i < |cs| == |marks|
    ensures Ref(cs, marks, At(cs, i), NewAt(cs, marks, i))
  {
    hide At, NewAt, IndexAt;
    IndexUnique(cs, i);
  }

  lemma SoundParts(j: Job)
    requires Sound(j)
    ensures Link(j.cs, j.extra, j.highs, j.lows).Some? && Distinct(j.highs, j.lows) && Resolved(j.cs, j.highs, j.lows)
  {
    hide Link, Distinct, Resolved;
    LinkResolves(j.cs, j.extra, j.highs, j.lows);
  }

  lemma SoundSmall(j: Job, i: nat)
    requires Sound(j) && i < |j.cs|
    ensures NewAt(j.cs, MarksOf(j), i) < 0x1_0000_0000
  {
    hide Link, Distinct, NewAt, Marks;
  }

  lemma SoundPair(j: Job, r: LowRef)
    requires Sound(j) && r in j.lows
    ensures PairOk(j, r)
  {
    hide Link, Distinct, NewAt, Marks, PairOk;
  }

  /** The references as the linked program has them. */
  function NewHighs(j: Job): seq<HighRef> {
    MovedHighs(j.cs, MarksOf(j), j.highs)
  }

  function NewLows(j: Job): seq<LowRef> {
    MovedLows(j.cs, MarksOf(j), j.lows)
  }

  lemma NewNames(j: Job, i: nat, k: nat)
    requires Sound(j) && i < |j.cs| && k < |j.cs|
    ensures
      var marks := MarksOf(j);
      && (IsHigh(NewHighs(j), NewAt(j.cs, marks, i)) <==> IsHigh(j.highs, At(j.cs, i)))
      && (IsLow(NewLows(j), NewAt(j.cs, marks, i)) <==> IsLow(j.lows, At(j.cs, i)))
      && (Completes(NewLows(j), NewAt(j.cs, marks, i), NewAt(j.cs, marks, k)) <==> Completes(j.lows, At(j.cs, i), At(j.cs, k)))
  {
    hide Sound, At, NewAt, IsHigh, IsLow, Completes, IndexAt;
    SoundParts(j);
    MovedHigh(j.cs, MarksOf(j), j.highs, i);
    MovedLowAt(j.cs, MarksOf(j), j.lows, i, k);
  }

  lemma FallthroughOpcode()
    ensures Opcode(FALLTHROUGH.w) == 0x0B
  {
    Whole(0x400B);
  }

  lemma HighOf(highs: seq<HighRef>, a: int) returns (h: HighRef)
    requires IsHigh(highs, a)
    ensures h in highs && h.auipc == a
  {
    h :| h in highs && h.auipc == a;
  }

  lemma PartLike(j: Job, i: nat, v: Value, w: Value)
    requires Sound(j) && i < |j.cs| && v.Part? && w.Part?
    requires v.auipc == At(j.cs, i) && w.auipc == NewAt(j.cs, MarksOf(j), i) && Halves(j, i, v.addr, w.addr)
    ensures Like(j, v, w)
  {
    hide Sound, At, NewAt, IndexAt, Halves;
    IndexUnique(j.cs, i);
  }

  /** An `auipc` into a register RV64E lacks is reserved. */
  lemma AuipcRefused(w: u32, plain: PlainDecoder)
    requires w % 4 == 3 && Opcode(w) == OP_AUIPC && Field(w, 0x80, 0x20) >= 16
    ensures InstOf(Long(w), plain) == Reserved
  {
    hide Field, UpperImm;
  }

  /** A named `auipc` leaves matching halves. */
  lemma HighLike(j: Job, i: nat, plain: PlainDecoder, ops: Ops, next: int, next': int, s: Tagged, t: Tagged)
    requires Sound(j) && i < |j.cs| && Same(j, s, t) && IsHigh(j.highs, At(j.cs, i)) && !IsLow(j.lows, At(j.cs, i))
    requires Shape(j.cs[i]).Long? && Opcode(Shape(j.cs[i]).w) == OP_AUIPC
    ensures
      var shapes := LinkShapes(j.cs, j.extra, j.highs, j.lows);
      Agree(j, TaggedStep(Shape(j.cs[i]), plain, ops, j.highs, j.lows, At(j.cs, i), next, s),
               TaggedStep(shapes[i], plain, ops, NewHighs(j), NewLows(j), NewAt(j.cs, MarksOf(j), i), next', t))
  {
    hide Sound, LinkShapes, Link, Same, Like, Shape, At, NewAt, IndexAt, IsHigh, IsLow, Opcode, UpperWord, UpperImm, Field, NewOf,
         InstOf, Ref, Run, Complete, U32, Write, Marks, NewHighs, NewLows, Hi;
    var marks, c := MarksOf(j), Shape(j.cs[i]);
    SoundParts(j);
    NewNames(j, i, i);
    var h := HighOf(j.highs, At(j.cs, i));
    NamedHigh(j.cs, j.extra, j.highs, j.lows, i, h);
    var c' := LinkShapes(j.cs, j.extra, j.highs, j.lows)[i];
    UpperWordFields(c.w, NewOf(j.cs, marks, h.target) - NewAt(j.cs, marks, i), OP_AUIPC);
    var v := Part(At(j.cs, i), U32(At(j.cs, i) + UpperImm(c.w)));
    var w := Part(NewAt(j.cs, marks, i), U32(NewAt(j.cs, marks, i) + UpperImm(c'.w)));
    FallthroughOpcode();
    if Field(c.w, 0x80, 0x20) < 16 {
      PartLike(j, i, v, w);
      WriteLike(j, s, t, Field(c.w, 0x80, 0x20), v, w);
    } else {
      AuipcRefused(c.w, plain);
      AuipcRefused(c'.w, plain);
      OwnRef(j.cs, marks, i);
      RunLike(j, Reserved, ops, At(j.cs, i), next, NewAt(j.cs, marks, i), next', s, t);
    }
  }

  /** The low twenty bits of a word, field by field. */
  lemma LowDigits(w: u32)
    ensures Field(w, 1, 0x10_0000)
      == ((Field(w, 0x8000, 0x20) * 8 + Field(w, 0x1000, 8)) * 0x20 + Field(w, 0x80, 0x20)) * 0x80 + Field(w, 1, 0x80)
  {
    hide Field, Above;
    Digit(w, 1, 0x10_0000, 0x10_0000);
    Digit(w, 1, 0x80, 0x80);
    Digit(w, 0x80, 0x20, 0x1000);
    Digit(w, 0x1000, 8, 0x8000);
    Digit(w, 0x8000, 0x20, 0x10_0000);
  }

  lemma SameDigit(a: nat, x: nat, b: nat, y: nat, n: nat)
    requires a * n + x == b * n + y && x < n && y < n
    ensures a == b && x == y
  {
    Cut(a, x, n);
    Cut(b, y, n);
  }

  /** The fields of an I-type word below its immediate come with its low bits. */
  lemma LowFields(a: u32, b: u32)
    requires Field(a, 1, 0x10_0000) == Field(b, 1, 0x10_0000)
    ensures Field(a, 0x80, 0x20) == Field(b, 0x80, 0x20) && Field(a, 0x1000, 8) == Field(b, 0x1000, 8)
    ensures Field(a, 0x8000, 0x20) == Field(b, 0x8000, 0x20) && Opcode(a) == Opcode(b)
  {
    hide Field, Above;
    LowDigits(a);
    LowDigits(b);
    var ra, rb := Field(a, 0x8000, 0x20), Field(b, 0x8000, 0x20);
    var fa, fb := ra * 8 + Field(a, 0x1000, 8), rb * 8 + Field(b, 0x1000, 8);
    SameDigit(fa * 0x20 + Field(a, 0x80, 0x20), Field(a, 1, 0x80), fb * 0x20 + Field(b, 0x80, 0x20), Field(b, 1, 0x80), 0x80);
    SameDigit(fa, Field(a, 0x80, 0x20), fb, Field(b, 0x80, 0x20), 0x20);
    SameDigit(ra, Field(a, 0x1000, 8), rb, Field(b, 0x1000, 8), 8);
  }

  /** A patched word keeps its fields and carries the new immediate. */
  lemma PatchedFields(w: u32, imm: int)
    requires -0x800 <= imm < 0x800
    ensures ITypeOf(PatchI(w, imm)) == ITypeOf(w).(imm := imm) && Opcode(PatchI(w, imm)) == Opcode(w)
  {
    hide Field, PatchI, ImmI, Opcode;
    PatchIFields(w, imm);
    LowFields(PatchI(w, imm), w);
  }

  lemma ResolvedLow(cs: seq<Chunk>, highs: seq<HighRef>, lows: seq<LowRef>, r: LowRef)
    requires Resolved(cs, highs, lows) && r in lows
    ensures IndexAt(cs, r.lo).Some? && IndexAt(cs, r.auipc).Some? && IndexAt(cs, r.target).Some?
    ensures At(cs, IndexAt(cs, r.target).value) == r.target
  {
    hide IndexAt, At;
  }

  lemma SameWordAt(c: Chunk)
    requires Shape(c).Long? && Opcode(Shape(c).w) in {OP_AUIPC, 0x67, 0x13}
    ensures Shape(c) == c
  {
    hide Shape, Opcode, Disp;
    ShapeOpcode(c);
    ShortShape(c);
    NoDisp(c.w);
    PlainShape(c);
  }

  /** Old halves add up to the target, new halves to its new offset. */
  lemma CompletedLike(j: Job, i: nat, l: nat, r: LowRef, x: u32, y: u32)
    requires Sound(j) && i < |j.cs| && l < |j.cs| && Halves(j, i, x, y)
    requires r in j.lows && r.lo == At(j.cs, l) && r.auipc == At(j.cs, i)
    requires Shape(j.cs[l]).Long? && Opcode(Shape(j.cs[l]).w) in {0x67, 0x13}
    ensures
      var marks := MarksOf(j);
      var d := NewOf(j.cs, marks, r.target) - NewOf(j.cs, marks, r.auipc);
      Ref(j.cs, marks, U32(x + ImmI(Shape(j.cs[l]).w)), U32(y + Lo(d)))
  {
    hide Sound, Link, LinkShapes, Shape, At, NewAt, IndexAt, Opcode, UpperWord, UpperImm, Lo, ImmI, U32, Disp, Resolved, Distinct, Ref,
         Interp.SignExtend32, IsHigh, IsLow;
    var marks := MarksOf(j);
    SoundParts(j);
    SoundPair(j, r);
    IndexUnique(j.cs, i);
    IndexUnique(j.cs, l);
    ResolvedLow(j.cs, j.highs, j.lows, r);
    var t := IndexAt(j.cs, r.target).value;
    var nt: int, na: int := NewAt(j.cs, marks, t), NewAt(j.cs, marks, i);
    NamedHigh(j.cs, j.extra, j.highs, j.lows, i, HighRef(r.auipc, r.target));
    SameWordAt(j.cs[i]);
    SameWordAt(j.cs[l]);
    var wa, wl := j.cs[i].w, j.cs[l].w;
    U32Add(r.auipc + UpperImm(wa), ImmI(wl));
    SoundSmall(j, t);
    U32Small(nt);
    AuipcPair(0, na, nt, wa);
    SignExtendLow(y, Lo(nt - na));
    OwnRef(j.cs, marks, t);
  }

  lemma LowOf(lows: seq<LowRef>, lo: int, auipc: int) returns (r: LowRef)
    requires Completes(lows, lo, auipc)
    ensures r in lows && r.lo == lo && r.auipc == auipc
  {
    r :| r in lows && r.lo == lo && r.auipc == auipc;
  }

  lemma AnyLow(lows: seq<LowRef>, lo: int) returns (r: LowRef)
    requires IsLow(lows, lo)
    ensures r in lows && r.lo == lo
  {
    r :| r in lows && r.lo == lo;
  }

  lemma OneLow(highs: seq<HighRef>, lows: seq<LowRef>, a: LowRef, b: LowRef)
    requires Distinct(highs, lows) && a in lows && b in lows && a.lo == b.lo
    ensures a == b
  {
  }

  lemma JalrTerm(c: Chunk)
    requires c.Long? && Opcode(c.w) == 0x67
    ensures IsTerm(c)
  {
  }

  /** A named low part takes matching halves to related code pointers. */
  lemma LowLike(j: Job, i: nat, next: int, next': int, s: Tagged, t: Tagged)
    requires Sound(j) && i < |j.cs| && Same(j, s, t) && IsLow(j.lows, At(j.cs, i))
    requires IsTerm(Shape(j.cs[i])) ==> Ref(j.cs, MarksOf(j), next, next')
    ensures
      var shapes := LinkShapes(j.cs, j.extra, j.highs, j.lows);
      Agree(j, Complete(Shape(j.cs[i]), j.lows, At(j.cs, i), next, s),
               Complete(shapes[i], NewLows(j), NewAt(j.cs, MarksOf(j), i), next', t))
  {
    hide Sound, LinkShapes, Link, Same, Halves, Shape, At, NewAt, IndexAt, IsHigh, IsLow, Opcode, PatchI, Field, ImmI, NewOf, Ref,
         Completes, Lo, U32, Marks, IsTerm, Write, Read;
    SoundParts(j);
    var marks, c, c' := MarksOf(j), Shape(j.cs[i]), LinkShapes(j.cs, j.extra, j.highs, j.lows)[i];
    var r0 := AnyLow(j.lows, At(j.cs, i));
    NamedLow(j.cs, j.extra, j.highs, j.lows, i, r0);
    if c.Long? && Opcode(c.w) in {0x67, 0x13} {
      var d := NewOf(j.cs, marks, r0.target) - NewOf(j.cs, marks, r0.auipc);
      PatchedFields(c.w, Lo(d));
      var f := ITypeOf(c.w);
      var v, w := Read(s, f.rs1), Read(t, f.rs1);
      ReadLike(j, s, t, f.rs1);
      if v.Part? {
        var k := IndexAt(j.cs, v.auipc).value;
        NewNames(j, i, k);
        if Completes(j.lows, At(j.cs, i), v.auipc) && f.Legal() {
          var r := LowOf(j.lows, At(j.cs, i), v.auipc);
          OneLow(j.highs, j.lows, r0, r);
          CompletedLike(j, k, i, r, v.addr, w.addr);
          if Opcode(c.w) == 0x67 {
            JalrTerm(c);
            WriteLike(j, s, t, f.rd, Code(next), Code(next'));
          } else {
            WriteLike(j, s, t, f.rd, Code(U32(v.addr + f.imm)), Code(U32(w.addr + Lo(d))));
          }
        }
      }
    }
  }

  lemma PatchedPlain(c: Chunk)
    requires c.Long? && Opcode(c.w) in {OP_AUIPC, 0x03, 0x13, 0x67, 0x23}
    ensures Disp(c) == None
  {
    hide Opcode;
  }

  lemma ShapePatched(c: Chunk, x: Chunk)
    requires Patched(c, x)
    ensures Patched(Shape(c), Shape(x))
  {
    hide Shape, Opcode, Disp;
    if x != c {
      PatchedKeeps(c, x);
      PatchedPlain(c);
      PlainShape(c);
      PlainShape(x);
    }
  }

  /** Linking changes the immediates of shapes only. */
  lemma LinkPatched(cs: seq<Chunk>, extra: set<nat>, highs: seq<HighRef>, lows: seq<LowRef>, i: nat)
    requires Link(cs, extra, highs, lows).Some? && i < |cs|
    ensures Patched(Shape(cs[i]), LinkShapes(cs, extra, highs, lows)[i])
  {
    hide Align, GoodMap, RemapOf, Fixup, Marks, NewIdx, Shape, Patched, LinkShapes;
    var marks, code := Marks(cs, extra), Align(cs, extra).code;
    RemapGood(cs, extra);
    FixupPatched(code, RemapOf(cs, marks), highs, lows);
    AlignedShape(cs, extra, i);
    LinkShapeAt(cs, extra, highs, lows, i);
    var k := NewIdx(marks, i);
    ShapePatched(code[k], Link(cs, extra, highs, lows).value[k]);
  }

  /** Neither completed nor an `auipc` reference: the same instruction. */
  lemma SameInst(j: Job, i: nat)
    requires Sound(j) && i < |j.cs| && !IsLow(j.lows, At(j.cs, i))
    requires
      var c := Shape(j.cs[i]);
      IsHigh(j.highs, At(j.cs, i)) ==> !(c.Long? && Opcode(c.w) == OP_AUIPC)
    ensures LinkShapes(j.cs, j.extra, j.highs, j.lows)[i] == Shape(j.cs[i])
  {
    hide Sound, LinkShapes, Link, Shape, At, NewAt, IndexAt, IsHigh, IsLow, Opcode, UpperWord, NewOf, Marks;
    SoundParts(j);
    if IsHigh(j.highs, At(j.cs, i)) {
      var h := HighOf(j.highs, At(j.cs, i));
      NamedHigh(j.cs, j.extra, j.highs, j.lows, i, h);
    } else {
      Unnamed(j.cs, j.extra, j.highs, j.lows, i);
    }
  }

  /** One step of the machine in either program. */
  lemma StepLike(j: Job, i: nat, plain: PlainDecoder, ops: Ops, next: int, next': int, s: Tagged, t: Tagged)
    requires Sound(j) && i < |j.cs| && Same(j, s, t)
    requires IsTerm(j.cs[i]) ==> Ref(j.cs, MarksOf(j), next, next')
    ensures
      var shapes := LinkShapes(j.cs, j.extra, j.highs, j.lows);
      Agree(j, TaggedStep(Shape(j.cs[i]), plain, ops, j.highs, j.lows, At(j.cs, i), next, s),
               TaggedStep(shapes[i], plain, ops, NewHighs(j), NewLows(j), NewAt(j.cs, MarksOf(j), i), next', t))
  {
    hide Sound, LinkShapes, Link, Same, Like, Shape, At, NewAt, IndexAt, IsHigh, IsLow, Opcode, UpperImm, Field, InstOf, Ref, Run,
         Complete, IsTerm, Patched, U32, Marks, NewHighs, NewLows;
    SoundParts(j);
    var c, c' := Shape(j.cs[i]), LinkShapes(j.cs, j.extra, j.highs, j.lows)[i];
    NewNames(j, i, i);
    LinkPatched(j.cs, j.extra, j.highs, j.lows, i);
    FallthroughKept(c, c');
    ShapeTerm(j.cs[i]);
    if c == FALLTHROUGH {
    } else if IsLow(j.lows, At(j.cs, i)) {
      LowLike(j, i, next, next', s, t);
    } else if IsHigh(j.highs, At(j.cs, i)) && c.Long? && Opcode(c.w) == OP_AUIPC {
      HighLike(j, i, plain, ops, next, next', s, t);
    } else {
      SameInst(j, i);
      LinksAreTerms(c, plain);
      OwnRef(j.cs, MarksOf(j), i);
      RunLike(j, InstOf(c, plain), ops, At(j.cs, i), next, NewAt(j.cs, MarksOf(j), i), next', s, t);
    }
  }

  /** The tagged machine respects the relation, in each program with the references
      of that program. */
  lemma TaggedRespects(j: Job, plain: PlainDecoder, ops: Ops)
    requires Sound(j)
    ensures Respects(j.cs, MarksOf(j), LinkShapes(j.cs, j.extra, j.highs, j.lows),
                     TaggedExec(plain, ops, j.highs, j.lows), TaggedExec(plain, ops, NewHighs(j), NewLows(j)), SameTagged(j))
  {
    hide Sound, LinkShapes, Link, Same, SameFlow, TaggedStep, Shape, Ref, At, NewAt, IsTerm, Marks, NewHighs, NewLows;
    SoundParts(j);
    var marks, shapes := MarksOf(j), LinkShapes(j.cs, j.extra, j.highs, j.lows);
    var exec, exec' := TaggedExec(plain, ops, j.highs, j.lows), TaggedExec(plain, ops, NewHighs(j), NewLows(j));
    forall i: nat, s: Tagged, t: Tagged | i < |j.cs| && NextRef(j.cs, marks, i) && Same(j, s, t)
      ensures
        var r, r' := OldResult(j.cs, exec, i, s), NewResult(j.cs, marks, shapes, exec', i, t);
        Same(j, r.s, r'.s) && SameFlow(j.cs, marks, r.flow, r'.flow)
    {
      StepLike(j, i, plain, ops, At(j.cs, i + 1), NewAt(j.cs, marks, i) + Len(j.cs[i]), s, t);
    }
  }

  lemma TaggedInert(plain: PlainDecoder, ops: Ops, highs: seq<HighRef>, lows: seq<LowRef>)
    ensures Inert(TaggedExec(plain, ops, highs, lows))
  {
    hide Run, Complete;
  }

  /** So for this machine every run before linking is matched after it, through
      links, indirect jumps and the kept pairs, each program computing with its own
      code addresses. */
  lemma TaggedForward(j: Job, plain: PlainDecoder, ops: Ops, st: State<Tagged>, st': State<Tagged>, n: nat) returns (m: nat)
    requires Sound(j) && EdgesOk(j.cs, MarksOf(j)) && Matches(MarksOf(j), SameTagged(j), st, st')
    ensures m <= 2 * n
    ensures
      var out := Link(j.cs, j.extra, j.highs, j.lows).value;
      Matches(MarksOf(j), SameTagged(j), After(j.cs, TaggedExec(plain, ops, j.highs, j.lows), st, n),
              After(out, TaggedExec(plain, ops, NewHighs(j), NewLows(j)), st', m))
  {
    hide Sound, Link, LinkShapes, EdgesOk, Inert, After, Respects, Matches, SameTagged, TaggedExec, NewHighs, NewLows, Marks;
    SoundParts(j);
    TaggedRespects(j, plain, ops);
    TaggedInert(plain, ops, NewHighs(j), NewLows(j));
    m := LinkForward(j.cs, j.extra, j.highs, j.lows, TaggedExec(plain, ops, j.highs, j.lows),
                     TaggedExec(plain, ops, NewHighs(j), NewLows(j)), SameTagged(j), st, st', n);
  }

  /** And the other way round. */
  lemma TaggedBackward(j: Job, plain: PlainDecoder, ops: Ops, st: State<Tagged>, st': State<Tagged>, m: nat) returns (n: nat)
    requires Sound(j) && EdgesOk(j.cs, MarksOf(j)) && Matches(MarksOf(j), SameTagged(j), st, st')
    ensures n <= m
    ensures
      var out := Link(j.cs, j.extra, j.highs, j.lows).value;
      Shows(MarksOf(j), SameTagged(j), After(j.cs, TaggedExec(plain, ops, j.highs, j.lows), st, n),
            After(out, TaggedExec(plain, ops, NewHighs(j), NewLows(j)), st', m))
  {
    hide Sound, Link, LinkShapes, EdgesOk, Inert, After, Respects, Matches, Shows, SameTagged, TaggedExec, NewHighs, NewLows, Marks;
    SoundParts(j);
    TaggedRespects(j, plain, ops);
    TaggedInert(plain, ops, NewHighs(j), NewLows(j));
    n := LinkBackward(j.cs, j.extra, j.highs, j.lows, TaggedExec(plain, ops, j.highs, j.lows),
                      TaggedExec(plain, ops, NewHighs(j), NewLows(j)), SameTagged(j), st, st', m);
  }

  // ---- A pair that is linked ------------------------------------------------

  /** An `auipc` and `jalr` at 0 and 4 to the last of two more instructions. */
  predicate IsPair(cs: seq<Chunk>) {
    && |cs| == 4 && (forall i :: 0 <= i < 4 ==> cs[i].Long? && Disp(cs[i]) == None)
    && Opcode(cs[0].w) == OP_AUIPC && Opcode(cs[1].w) == 0x67
    && UpperImm(cs[0].w) == 0 && ImmI(cs[1].w) == 12
  }

  lemma PairStarts(cs: seq<Chunk>)
    requires IsPair(cs)
    ensures At(cs, 1) == 4 && At(cs, 3) == 12
    ensures IndexAt(cs, 0) == Some(0) && IndexAt(cs, 4) == Some(1) && IndexAt(cs, 12) == Some(3)
  {
    hide Disp, IndexAt, Opcode, UpperImm, ImmI;
    assert At(cs, 0) == 0;
    assert At(cs, 1) == 4;
    assert At(cs, 2) == 8;
    IndexUnique(cs, 0);
    IndexUnique(cs, 1);
    IndexUnique(cs, 3);
  }

  lemma PairAligns(cs: seq<Chunk>, extra: set<nat>)
    requires IsPair(cs)
    ensures Align(cs, extra).Linked?
  {
    hide Disp, IndexAt, At, Opcode, UpperImm, ImmI, Marks, Weave;
    var marks := Marks(cs, extra);
    forall i | 0 <= i < 4 ensures Recode(cs, marks, i).Some? {
    }
  }

  lemma PairFixes(cs: seq<Chunk>, extra: set<nat>)
    requires IsPair(cs)
    ensures Link(cs, extra, [HighRef(0, 12)], [LowRef(4, 0, 12)]).Some?
  {
    hide Align, GoodMap, RemapOf, IndexAt, At, Marks, Opcode, NewIdx, Shape, Disp, UpperImm, ImmI, UpperWord, FixLow;
    PairAligns(cs, extra);
    PairStarts(cs);
    var marks, code := Marks(cs, extra), Align(cs, extra).code;
    RemapGood(cs, extra);
    AlignedShape(cs, extra, 0);
    PlainShape(cs[0]);
    SameWordAt(code[NewIdx(marks, 0)]);
    SpotAt(cs, extra, 0);
    SpotAt(cs, extra, 4);
    SpotAt(cs, extra, 12);
    var remap, highs, lows := RemapOf(cs, marks), [HighRef(0, 12)], [LowRef(4, 0, 12)];
    assert FixHighs(code, remap, highs, 0) == Some(code);
    assert FixHighs(code, remap, highs, 1).Some?;
    var c := FixHighs(code, remap, highs, 1).value;
    assert FixLows(code, c, remap, lows, 0) == Some(c);
    assert FixLows(code, c, remap, lows, 1).Some?;
  }

  lemma PairSmall(cs: seq<Chunk>, marks: seq<bool>, i: nat)
    requires |cs| == |marks| == 4 && i < 4
    ensures NewAt(cs, marks, i) <= 8 * (i + 1)
  {
    if i > 0 {
      PairSmall(cs, marks, i - 1);
    }
  }

  lemma PairSound(cs: seq<Chunk>, extra: set<nat>)
    requires IsPair(cs)
    ensures Sound(Job(cs, extra, [HighRef(0, 12)], [LowRef(4, 0, 12)]))
  {
    hide Link, NewAt, At, IndexAt, Marks, Opcode, Disp;
    PairFixes(cs, extra);
    PairStarts(cs);
    var j := Job(cs, extra, [HighRef(0, 12)], [LowRef(4, 0, 12)]);
    forall i | 0 <= i < |cs| ensures NewAt(cs, Marks(cs, extra), i) < 0x1_0000_0000 {
      PairSmall(cs, Marks(cs, extra), i);
    }
    assert PairOk(j, LowRef(4, 0, 12));
  }

  lemma PairWords()
    ensures Opcode(0x97) == OP_AUIPC && UpperImm(0x97) == 0 && Disp(Long(0x97)) == None
    ensures Opcode(0xC0_80E7) == 0x67 && ImmI(0xC0_80E7) == 12 && Disp(Long(0xC0_80E7)) == None
    ensures Disp(Long(0x13)) == None
  {
    Whole(0x97);
    Whole(0xC0_80E7);
    Whole(0x13);
  }

  /** `auipc x1, 0`, `jalr x1, 12(x1)` and two no-ops: a link the theorem is about,
      whatever else is entered from outside. */
  lemma PairExample(extra: set<nat>)
    ensures Sound(Job([Long(0x97), Long(0xC0_80E7), Long(0x13), Long(0x13)], extra, [HighRef(0, 12)], [LowRef(4, 0, 12)]))
  {
    hide Sound;
    PairWords();
    PairSound([Long(0x97), Long(0xC0_80E7), Long(0x13), Long(0x13)], extra);
  }
}
