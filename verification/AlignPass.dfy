/** `align_branch_targets` on the code bytes, pass by pass (nub-linker
    `link.rs`). The ghost list of instructions and the ghost tail say how the
    bytes split. */
module AlignPass {
  import opened Prelude
  import opened Encoding
  import opened Isa
  import opened Chunks
  import opened Inject

  lemma WordLow(code: seq<byte>, pc: nat)
    requires pc + 4 <= |code|
    ensures WordAt(code, pc) % 4 == HalfAt(code, pc) % 4
  {
  }

  /** The instruction at a byte offset. */
  function ChunkAt(code: seq<byte>, pc: nat): Chunk
    requires pc + 2 <= |code| && (HalfAt(code, pc) % 4 == 3 ==> pc + 4 <= |code|)
  {
    if HalfAt(code, pc) % 4 != 3 then Short(HalfAt(code, pc))
    else
      WordLow(code, pc);
      Long(WordAt(code, pc))
  }

  lemma ChunkBytes(code: seq<byte>, pc: nat, c: Chunk)
    requires pc + Len(c) <= |code| && code[pc..pc + Len(c)] == Bytes(c)
    ensures pc + 2 <= |code| && (HalfAt(code, pc) % 4 == 3 ==> pc + 4 <= |code|) && ChunkAt(code, pc) == c
  {
    var b := code[pc..pc + Len(c)];
    assert code[pc] == b[0] && code[pc + 1] == b[1];
    match c {
      case Short(h) =>
        assert HalfAt(code, pc) == h;
      case Long(w) =>
        assert code[pc + 2] == b[2] && code[pc + 3] == b[3];
        assert b[..2] == HalfBytes(w % 0x1_0000) && b[2..] == HalfBytes(w / 0x1_0000);
        assert b[2] == b[2..][0] && b[3] == b[2..][1];
        assert HalfAt(code, pc) == w % 0x1_0000;
        assert HalfAt(code, pc + 2) == w / 0x1_0000;
    }
  }

  lemma ChunkHere(cs: seq<Chunk>, i: nat)
    requires i < |cs|
    ensures
      var code, pc := Flatten(cs), At(cs, i);
      && pc + Len(cs[i]) <= |code| && pc + 2 <= |code| && (HalfAt(code, pc) % 4 == 3 ==> pc + 4 <= |code|)
      && ChunkAt(code, pc) == cs[i] && code[pc..pc + Len(cs[i])] == Bytes(cs[i])
  {
    hide ChunkAt, Bytes, FlattenTo;
    FlattenAt(cs, i);
    ChunkBytes(Flatten(cs), At(cs, i), cs[i]);
  }

  // ---- Pass 1: terminators and edges ----------------------------------------

  /** Offsets known to follow a terminator after scanning `i` instructions. */
  function PostSet(cs: seq<Chunk>, i: nat): set<nat>
    requires i <= |cs|
  {
    if i == 0 then {0}
    else PostSet(cs, i - 1) + if IsTerm(cs[i - 1]) && i < |cs| then {At(cs, i)} else {}
  }

  /** In-range static targets of the first `i` instructions. */
  function TargetSet(cs: seq<Chunk>, i: nat): set<nat>
    requires i <= |cs|
  {
    if i == 0 then {}
    else
      var d := Disp(cs[i - 1]);
      TargetSet(cs, i - 1)
      + if d.Some? && 0 <= At(cs, i - 1) + d.value < At(cs, |cs|) then {At(cs, i - 1) + d.value} else {}
  }

  lemma {:induction false} PostSetExact(cs: seq<Chunk>, i: nat, k: nat)
    requires i <= |cs| && k < |cs|
    ensures At(cs, k) in PostSet(cs, i) <==> k == 0 || (k <= i && IsTerm(cs[k - 1]))
  {
    hide IsTerm;
    if i == 0 {
      if k > 0 {
        AtMono(cs, 0, k);
      }
    } else {
      PostSetExact(cs, i - 1, k);
      if i < |cs| && k != i {
        IndexUnique(cs, i);
        IndexUnique(cs, k);
      }
    }
  }

  lemma {:induction false} TargetSetExact(cs: seq<Chunk>, i: nat, k: nat)
    requires i <= |cs| && k < |cs|
    ensures At(cs, k) in TargetSet(cs, i) <==> exists j :: 0 <= j < i && Goes(cs, j, k)
  {
    hide Disp;
    AtMono(cs, k, |cs|);
    if i > 0 {
      TargetSetExact(cs, i - 1, k);
      if Goes(cs, i - 1, k) {
        assert At(cs, k) in TargetSet(cs, i);
      }
    }
  }

  lemma ScanStart(cs: seq<Chunk>)
    ensures At(cs, 0) == 0 && PostSet(cs, 0) == {0} && TargetSet(cs, 0) == {}
  {
  }

  lemma ScanStep(cs: seq<Chunk>, i: nat)
    requires i < |cs|
    ensures At(cs, i + 1) == At(cs, i) + Len(cs[i]) <= At(cs, |cs|)
    ensures PostSet(cs, i + 1) == PostSet(cs, i) + if IsTerm(cs[i]) && At(cs, i + 1) < At(cs, |cs|) then {At(cs, i + 1)} else {}
    ensures
      var d := Disp(cs[i]);
      TargetSet(cs, i + 1) == TargetSet(cs, i)
        + if d.Some? && 0 <= At(cs, i) + d.value < At(cs, |cs|) then {At(cs, i) + d.value} else {}
  {
    hide IsTerm, Disp;
    if i + 1 < |cs| {
      AtMono(cs, i + 1, |cs|);
    }
  }

  function Below(offsets: set<nat>, n: nat): (r: set<nat>)
    ensures forall t :: t in r <==> t in offsets && t < n
  {
    set t <- offsets | t < n
  }

  /** What can be left behind the last whole instruction: nothing, a lone byte, or
      the beginning of a four-byte instruction. */
  predicate IsTail(tail: seq<byte>) {
    |tail| < 4 && (|tail| >= 2 ==> HalfAt(tail, 0) % 4 == 3)
  }

  /** `addi x0, x0, 0`: neither a terminator nor a branch. */
  const NOP: Chunk := Long(0x13)

  lemma NopIsPlain()
    ensures !IsTerm(NOP) && Disp(NOP) == None
  {
    Whole(0x13);
  }

  /** The instruction starts the pass works with: a tail counts as one, and as
      neither a terminator nor a branch. */
  function Seen(cs: seq<Chunk>, tail: seq<byte>): (ds: seq<Chunk>)
    ensures tail == [] ==> ds == cs
  {
    if tail == [] then cs else cs + [NOP]
  }

  lemma {:induction false} FlattenSame(a: seq<Chunk>, b: seq<Chunk>, k: nat)
    requires k <= |a| && k <= |b| && a[..k] == b[..k]
    ensures FlattenTo(a, k) == FlattenTo(b, k) && At(a, k) == At(b, k)
  {
    if k > 0 {
      assert a[..k - 1] == a[..k][..k - 1] && b[..k - 1] == b[..k][..k - 1];
      assert a[k - 1] == a[..k][k - 1] && b[k - 1] == b[..k][k - 1];
      FlattenSame(a, b, k - 1);
    }
  }

  lemma SeenAt(cs: seq<Chunk>, tail: seq<byte>, i: nat)
    requires i <= |cs|
    ensures i < |cs| ==> Seen(cs, tail)[i] == cs[i]
    ensures At(Seen(cs, tail), i) == At(cs, i)
  {
    FlattenSame(cs, Seen(cs, tail), i);
  }

  lemma ChunkRead(code: seq<byte>, cs: seq<Chunk>, tail: seq<byte>, i: nat)
    requires code == Flatten(cs) + tail && i < |cs|
    ensures
      var pc := At(cs, i);
      && pc + 2 <= |code| && (HalfAt(code, pc) % 4 == 3 ==> pc + 4 <= |code|)
      && ChunkAt(code, pc) == cs[i]
  {
    hide ChunkAt, Bytes, FlattenTo, At, HalfAt;
    FlattenAt(cs, i);
    var pc, end := At(cs, i), At(cs, i) + Len(cs[i]);
    assert code[pc..end] == Flatten(cs)[pc..end];
    ChunkBytes(code, pc, cs[i]);
  }

  lemma TailRead(front: seq<byte>, tail: seq<byte>)
    requires |tail| >= 2
    ensures HalfAt(front + tail, |front|) == HalfAt(tail, 0)
  {
  }

  lemma CodeSize(cs: seq<Chunk>)
    ensures |Flatten(cs)| == At(cs, |cs|)
  {
  }

  /** What the scan reads behind `i` instructions: instruction `i`, or the tail. */
  lemma ScanRead(code: seq<byte>, cs: seq<Chunk>, tail: seq<byte>, i: nat)
    requires code == Flatten(cs) + tail && IsTail(tail) && i <= |cs|
    ensures
      var pc, n := At(cs, i), |code|;
      && n == At(cs, |cs|) + |tail|
      && (i == |cs| ==> (pc + 2 > n <==> |tail| <= 1))
      && (pc + 2 <= n ==> (i == |cs| <==> HalfAt(code, pc) % 4 == 3 && pc + 4 > n))
      && (i < |cs| ==> pc + 2 <= n && ChunkAt(code, pc) == cs[i])
  {
    hide ChunkAt, Flatten, At, HalfAt;
    CodeSize(cs);
    if i < |cs| {
      ChunkRead(code, cs, tail, i);
    } else if |tail| >= 2 {
      TailRead(Flatten(cs), tail);
    }
  }

  /** One turn of the scan, with the end of the code in place of the last start. */
  lemma SeenStep(cs: seq<Chunk>, tail: seq<byte>, i: nat)
    requires i < |cs| && IsTail(tail)
    ensures
      var ds, n, next := Seen(cs, tail), At(cs, |cs|) + |tail|, At(cs, i + 1);
      && next == At(cs, i) + Len(cs[i]) <= At(cs, |cs|)
      && PostSet(ds, i + 1) == PostSet(ds, i) + (if IsTerm(cs[i]) && next < n then {next} else {})
      && Below(TargetSet(ds, i + 1), n) == Below(TargetSet(ds, i), n)
           + var d := Disp(cs[i]);
             if d.Some? && 0 <= At(cs, i) + d.value < n then {At(cs, i) + d.value} else {}
  {
    hide IsTerm, Disp, PostSet, TargetSet, At;
    var ds := Seen(cs, tail);
    SeenAt(cs, tail, i);
    SeenAt(cs, tail, i + 1);
    SeenAt(cs, tail, |cs|);
    ScanStep(cs, i);
    ScanStep(ds, i);
    if tail != [] {
      ScanStep(ds, |cs|);
    }
    if i + 1 < |cs| {
      AtMono(cs, i + 1, |cs|);
      if tail != [] {
        AtMono(ds, i + 1, |ds|);
      }
    }
  }

  lemma SeenEnd(cs: seq<Chunk>, tail: seq<byte>)
    requires IsTail(tail)
    ensures
      var ds := Seen(cs, tail);
      && |ds| == |cs| + (if tail == [] then 0 else 1)
      && PostSet(ds, |ds|) == PostSet(ds, |cs|) && TargetSet(ds, |ds|) == TargetSet(ds, |cs|)
  {
    hide IsTerm, Disp, At;
    NopIsPlain();
  }

  /** Pass 1. A lone byte at the end is read past. */
  method Scan(code: seq<byte>, ghost cs: seq<Chunk>, ghost tail: seq<byte>)
    returns (ok: bool, starts: seq<nat>, post: set<nat>, targets: set<nat>)
    requires code == Flatten(cs) + tail && IsTail(tail)
    ensures ok <==> |tail| != 1
    ensures
      var ds := Seen(cs, tail);
      ok ==>
        && |starts| == |ds| && (forall i :: 0 <= i < |ds| ==> starts[i] == At(ds, i))
        && post == PostSet(ds, |ds|) && targets == Below(TargetSet(ds, |ds|), |code|)
  {
    hide IsTerm, Disp, ChunkAt, Flatten, IndexAt, PostSet, TargetSet, At, Bytes, HalfAt, Seen;
    ghost var ds := Seen(cs, tail);
    ScanStart(ds);
    ScanStart(cs);
    SeenEnd(cs, tail);
    starts, post, targets := [], {0}, {};
    var n := |code|;
    var pc := 0;
    ghost var i := 0;
    ScanRead(code, cs, tail, 0);
    while pc < n
      invariant 0 <= i <= |cs| && pc == At(cs, i) <= n
      invariant |starts| == i && forall k :: 0 <= k < i ==> starts[k] == At(ds, k)
      invariant post == PostSet(ds, i) && targets == Below(TargetSet(ds, i), n)
      decreases n - pc
    {
      ScanRead(code, cs, tail, i);
      SeenAt(cs, tail, i);
      starts := starts + [pc];
      if pc + 2 > n {
        return false, [], {}, {};
      }
      if HalfAt(code, pc) % 4 == 3 && pc + 4 > n {
        return true, starts, post, targets;
      }
      SeenStep(cs, tail, i);
      var c := ChunkAt(code, pc);
      var next := pc + Len(c);
      if IsTerm(c) && next < n {
        post := post + {next};
      }
      var d := Disp(c);
      if d.Some? && 0 <= pc + d.value < n {
        targets := targets + {pc + d.value};
      }
      pc := next;
      i := i + 1;
    }
    if i < |cs| {
      AtMono(cs, i, |cs|);
    }
    ok := true;
  }

  // ---- Pass 2: where to inject ----------------------------------------------

  /** Targets and extra targets that are instruction starts not behind a
      terminator. */
  function Needs(cs: seq<Chunk>, extra: set<nat>): set<nat> {
    set t <- TargetSet(cs, |cs|) + extra | t !in PostSet(cs, |cs|) && IndexAt(cs, t).Some?
  }

  lemma NeedsMarks(cs: seq<Chunk>, extra: set<nat>, k: nat)
    requires k < |cs|
    ensures At(cs, k) in Needs(cs, extra) <==> Marks(cs, extra)[k]
  {
    hide IsTerm, Goes, IndexAt, At;
    TargetSetExact(cs, |cs|, k);
    PostSetExact(cs, |cs|, k);
    IndexUnique(cs, k);
  }

  lemma NothingNeeded(cs: seq<Chunk>, extra: set<nat>)
    ensures Needs(cs, extra) == {} <==> true !in Marks(cs, extra)
  {
    hide IndexAt, At, Targeted, PostTerm, TargetSet, PostSet;
    var marks := Marks(cs, extra);
    if t :| t in Needs(cs, extra) {
      var k := IndexAt(cs, t).value;
      NeedsMarks(cs, extra, k);
      assert marks[k];
    }
    if true in marks {
      var k :| 0 <= k < |marks| && marks[k];
      NeedsMarks(cs, extra, k);
    }
  }

  // ---- Pass 3: the new layout -----------------------------------------------

  lemma FlattenAppend(a: seq<Chunk>, c: Chunk)
    ensures Flatten(a + [c]) == Flatten(a) + Bytes(c) && At(a + [c], |a| + 1) == At(a, |a|) + Len(c)
  {
    hide Bytes;
    FlattenSame(a, a + [c], |a|);
  }

  /** The offset map built from the first `n` instructions. */
  predicate Maps(cs: seq<Chunk>, marks: seq<bool>, offsets: map<nat, nat>, n: nat)
    requires n <= |cs| == |marks|
  {
    && (forall k :: 0 <= k < n ==> At(cs, k) in offsets && offsets[At(cs, k)] == NewAt(cs, marks, k))
    && (forall o <- offsets :: IndexAt(cs, o).Some? && IndexAt(cs, o).value < n)
  }

  lemma BuildStart(cs: seq<Chunk>, marks: seq<bool>)
    requires |cs| == |marks|
    ensures Flatten(WeaveTo(cs, marks, 0)) == [] && Maps(cs, marks, map[], 0)
  {
  }

  /** Bytes before instruction `i`, not counting a fallthrough for `i` itself. */
  lemma {:induction false} WeaveSize(cs: seq<Chunk>, marks: seq<bool>, i: nat)
    requires i <= |cs| == |marks|
    ensures |Flatten(WeaveTo(cs, marks, i))| == if i == 0 then 0 else NewAt(cs, marks, i - 1) + Len(cs[i - 1])
  {
    hide Flatten, Bytes;
    if i > 0 {
      WeaveSize(cs, marks, i - 1);
      var w := WeaveTo(cs, marks, i - 1);
      var w' := w + (if marks[i - 1] then [FALLTHROUGH] else []);
      FlattenAppend(w, FALLTHROUGH);
      assert w + [] == w;
      assert |Flatten(w')| == |Flatten(w)| + Gap(marks[i - 1]);
      FlattenAppend(w', cs[i - 1]);
    } else {
      BuildStart(cs, marks);
    }
  }

  lemma MapsNext(cs: seq<Chunk>, marks: seq<bool>, offsets: map<nat, nat>, n: nat)
    requires n < |cs| == |marks| && Maps(cs, marks, offsets, n)
    ensures Maps(cs, marks, offsets[At(cs, n) := NewAt(cs, marks, n)], n + 1)
  {
    hide At, NewAt, IndexAt;
    IndexUnique(cs, n);
    forall k | 0 <= k < n ensures At(cs, k) != At(cs, n) {
      IndexUnique(cs, k);
    }
  }

  lemma MapsHere(cs: seq<Chunk>, marks: seq<bool>, offsets: map<nat, nat>, i: nat)
    requires i < |cs| == |marks| && Maps(cs, marks, offsets, |cs|)
    ensures At(cs, i) in offsets && offsets[At(cs, i)] == NewAt(cs, marks, i)
  {
  }

  /** The whole map. */
  lemma MapsAll(cs: seq<Chunk>, marks: seq<bool>, offsets: map<nat, nat>)
    requires |cs| == |marks| && Maps(cs, marks, offsets, |cs|)
    ensures offsets == RemapOf(cs, marks)
  {
    hide At, NewAt, IndexAt;
    var remap := RemapOf(cs, marks);
    forall o: nat ensures o in offsets <==> o in remap {
      if IndexAt(cs, o).Some? {
        AtMono(cs, IndexAt(cs, o).value, |cs|);
      }
    }
    forall o <- offsets ensures offsets[o] == remap[o] {
      MapsHere(cs, marks, offsets, IndexAt(cs, o).value);
    }
  }

  lemma BuildStep(cs: seq<Chunk>, marks: seq<bool>, i: nat)
    requires i < |cs| == |marks|
    ensures
      var before := Flatten(WeaveTo(cs, marks, i));
      var padded := if marks[i] then before + Bytes(FALLTHROUGH) else before;
      |padded| == NewAt(cs, marks, i) && Flatten(WeaveTo(cs, marks, i + 1)) == padded + Bytes(cs[i])
  {
    hide Bytes, FlattenTo;
    WeaveSize(cs, marks, i);
    var w := WeaveTo(cs, marks, i);
    var w' := w + (if marks[i] then [FALLTHROUGH] else []);
    FlattenAppend(w, FALLTHROUGH);
    FlattenAppend(w', cs[i]);
    assert w + [] == w;
  }

  method Build(code: seq<byte>, starts: seq<nat>, needs: set<nat>, ghost cs: seq<Chunk>, ghost marks: seq<bool>)
    returns (newCode: seq<byte>, offsets: map<nat, nat>)
    requires code == Flatten(cs) && |starts| == |cs| == |marks| && forall i :: 0 <= i < |cs| ==> starts[i] == At(cs, i)
    requires forall k :: 0 <= k < |cs| ==> (At(cs, k) in needs <==> marks[k])
    ensures newCode == Flatten(Weave(cs, marks)) && Maps(cs, marks, offsets, |cs|)
  {
    hide Flatten, IndexAt, At, NewAt, Bytes, ChunkAt, Maps;
    newCode, offsets := [], map[];
    BuildStart(cs, marks);
    for i := 0 to |starts|
      invariant newCode == Flatten(WeaveTo(cs, marks, i))
      invariant Maps(cs, marks, offsets, i)
    {
      BuildStep(cs, marks, i);
      ChunkHere(cs, i);
      ScanStep(cs, i);
      CodeSize(cs);
      if starts[i] in needs {
        newCode := newCode + Bytes(FALLTHROUGH);
      }
      MapsNext(cs, marks, offsets, i);
      offsets := offsets[starts[i] := |newCode|];
      var next := if i + 1 < |starts| then starts[i + 1] else |code|;
      newCode := newCode + code[starts[i]..next];
    }
  }

  // ---- Pass 4: re-encode ----------------------------------------------------

  predicate RecodesTo(cs: seq<Chunk>, marks: seq<bool>, i: nat)
    requires i <= |cs| == |marks|
  {
    forall k :: 0 <= k < i ==> Recode(cs, marks, k).Some?
  }

  /** The first `i` instructions re-encoded, the others as they were. */
  function Partly(cs: seq<Chunk>, marks: seq<bool>, i: nat): (news: seq<Chunk>)
    requires i <= |cs| == |marks| && RecodesTo(cs, marks, i)
    ensures |news| == |cs|
    ensures forall k :: 0 <= k < |cs| ==> news[k] == if k < i then Recode(cs, marks, k).value else cs[k]
  {
    seq(|cs|, k requires 0 <= k < |cs| => if k < i then Recode(cs, marks, k).value else cs[k])
  }

  lemma PartlyEnds(cs: seq<Chunk>, marks: seq<bool>)
    requires |cs| == |marks|
    ensures Partly(cs, marks, 0) == cs
    ensures RecodesTo(cs, marks, |cs|) <==> AllRecode(cs, marks)
    ensures AllRecode(cs, marks) ==> Partly(cs, marks, |cs|) == Recoded(cs, marks)
  {
    hide Recode;
  }

  lemma PartlyLens(cs: seq<Chunk>, marks: seq<bool>, i: nat)
    requires i <= |cs| == |marks| && RecodesTo(cs, marks, i)
    ensures forall k :: 0 <= k < |cs| ==> Len(Partly(cs, marks, i)[k]) == Len(cs[k])
  {
    hide Recode, Shape, Disp, IsTerm, IndexAt;
    forall k | 0 <= k < |cs| ensures Len(Partly(cs, marks, i)[k]) == Len(cs[k]) {
      if k < i {
        RecodeRelinked(cs, marks, k);
      }
    }
  }

  lemma UpdateLeft<T>(a: seq<T>, b: seq<T>, k: nat, c: T)
    requires k < |a|
    ensures (a + b)[k := c] == a[k := c] + b
  {
  }

  lemma UpdateLast<T>(a: seq<T>, x: T, c: T)
    ensures (a + [x])[|a| := c] == a + [c]
  {
  }

  lemma {:induction false} WeaveAgree(a: seq<Chunk>, b: seq<Chunk>, marks: seq<bool>, n: nat)
    requires |a| == |b| == |marks| && n <= |a| && forall k :: 0 <= k < n ==> a[k] == b[k]
    ensures WeaveTo(a, marks, n) == WeaveTo(b, marks, n)
  {
    if n > 0 {
      WeaveAgree(a, b, marks, n - 1);
    }
  }

  lemma {:induction false} WeaveUpdate(news: seq<Chunk>, marks: seq<bool>, i: nat, c: Chunk, n: nat)
    requires i < n <= |news| == |marks|
    ensures NewIdx(marks, i) < |WeaveTo(news, marks, n)|
    ensures WeaveTo(news[i := c], marks, n) == WeaveTo(news, marks, n)[NewIdx(marks, i) := c]
    decreases n
  {
    var a, k := WeaveTo(news, marks, n - 1), NewIdx(marks, i);
    var gap: seq<Chunk> := if marks[n - 1] then [FALLTHROUGH] else [];
    if i < n - 1 {
      WeaveUpdate(news, marks, i, c, n - 1);
      hide NewIdx;
      UpdateLeft(a, gap + [news[n - 1]], k, c);
      assert a + gap + [news[n - 1]] == a + (gap + [news[n - 1]]);
      assert a[k := c] + gap + [news[n - 1]] == a[k := c] + (gap + [news[n - 1]]);
    } else {
      WeaveAgree(news, news[i := c], marks, i);
      WeaveLen(news, marks, i);
      hide NewIdx;
      UpdateLast(a + gap, news[i], c);
    }
  }

  lemma FlattenLast(w: seq<Chunk>, n: nat)
    requires 0 < n <= |w|
    ensures FlattenTo(w, n) == FlattenTo(w, n - 1) + Bytes(w[n - 1])
  {
    hide Bytes;
  }

  lemma SpliceEnd(p: seq<byte>, q: seq<byte>, x: seq<byte>)
    ensures (p + q)[..|p|] + x + (p + q)[|p| + |q|..] == p + x
  {
  }

  lemma SpliceLeft(p: seq<byte>, q: seq<byte>, a: nat, b: nat, x: seq<byte>)
    requires a <= b <= |p|
    ensures (p + q)[..a] + x + (p + q)[b..] == p[..a] + x + p[b..] + q
  {
    assert (p + q)[..a] == p[..a];
    assert (p + q)[b..] == p[b..] + q;
  }

  lemma {:induction false} FlattenUpdate(w: seq<Chunk>, k: nat, c: Chunk, n: nat)
    requires k < n <= |w| && Len(c) == Len(w[k])
    ensures At(w, k) + Len(c) <= At(w, n)
    ensures FlattenTo(w[k := c], n) == FlattenTo(w, n)[..At(w, k)] + Bytes(c) + FlattenTo(w, n)[At(w, k) + Len(c)..]
    decreases n
  {
    hide Bytes, At, FlattenTo;
    AtMono(w, k, n);
    FlattenLast(w, n);
    FlattenLast(w[k := c], n);
    var p, a := FlattenTo(w, n - 1), At(w, k);
    if k < n - 1 {
      FlattenUpdate(w, k, c, n - 1);
      SpliceLeft(p, Bytes(w[n - 1]), a, a + Len(c), Bytes(c));
    } else {
      FlattenSame(w, w[k := c], k);
      SpliceEnd(p, Bytes(w[k]), Bytes(c));
    }
  }

  /** One instruction of the pass, read off the new code and the offset map. */
  function Reencoded(c: Chunk, oldPc: nat, newPc: nat, offsets: map<nat, nat>): Option<Chunk> {
    match Disp(c)
    case None => Some(c)
    case Some(d) =>
      if oldPc + d in offsets then
        var imm := offsets[oldPc + d] - newPc;
        if imm % 2 == 0 then Retarget(c, d, imm) else None
      else if c.Short? then None
      else Some(c)
  }

  lemma MapsOnly(cs: seq<Chunk>, marks: seq<bool>, offsets: map<nat, nat>)
    requires |cs| == |marks| && Maps(cs, marks, offsets, |cs|)
    ensures forall o <- offsets :: IndexAt(cs, o).Some?
  {
    hide IndexAt, At, NewAt;
  }

  lemma ReencodedIsRecode(cs: seq<Chunk>, marks: seq<bool>, offsets: map<nat, nat>, i: nat)
    requires i < |cs| == |marks| && Maps(cs, marks, offsets, |cs|)
    ensures Reencoded(cs[i], At(cs, i), NewAt(cs, marks, i), offsets) == Recode(cs, marks, i)
  {
    hide Disp, At, NewAt, IndexAt, Retarget, Maps, IsTerm;
    MapsOnly(cs, marks, offsets);
    var d := Disp(cs[i]);
    if d.Some? {
      var t := IndexAt(cs, At(cs, i) + d.value);
      if t.Some? {
        MapsHere(cs, marks, offsets, t.value);
        assert NewDisp(cs, marks, i, t.value) % 2 == 0;
      }
    }
  }

  lemma RecodedLen(cs: seq<Chunk>, marks: seq<bool>, i: nat)
    requires i < |cs| == |marks| && Recode(cs, marks, i).Some?
    ensures Len(Recode(cs, marks, i).value) == Len(cs[i])
  {
    hide Recode, Shape, Disp, IsTerm, IndexAt;
    RecodeRelinked(cs, marks, i);
  }

  /** Instruction `i` of the partly re-encoded program, and the program after it. */
  lemma PatchStep(cs: seq<Chunk>, marks: seq<bool>, i: nat)
    requires i < |cs| == |marks| && RecodesTo(cs, marks, i)
    ensures
      var code, pc := Flatten(Weave(Partly(cs, marks, i), marks)), NewAt(cs, marks, i);
      && pc + 2 <= |code| && (HalfAt(code, pc) % 4 == 3 ==> pc + 4 <= |code|) && ChunkAt(code, pc) == cs[i]
      && (Recode(cs, marks, i).Some? ==>
            var c := Recode(cs, marks, i).value;
            && RecodesTo(cs, marks, i + 1) && pc + Len(c) <= |code|
            && Flatten(Weave(Partly(cs, marks, i + 1), marks)) == code[..pc] + Bytes(c) + code[pc + Len(c)..])
  {
    hide FlattenTo, WeaveTo, At, NewAt, Recode, ChunkAt, Bytes, NewIdx, Relinked;
    var news := Partly(cs, marks, i);
    var w := Weave(news, marks);
    PartlyLens(cs, marks, i);
    NewOffsets(cs, marks, news, i);
    WeaveAt(news, marks, i);
    ChunkHere(w, NewIdx(marks, i));
    if Recode(cs, marks, i).Some? {
      var c := Recode(cs, marks, i).value;
      RecodedLen(cs, marks, i);
      assert Partly(cs, marks, i + 1) == news[i := c];
      WeaveUpdate(news, marks, i, c, |news|);
      FlattenUpdate(w, NewIdx(marks, i), c, |w|);
    }
  }

  method Reencode(built: seq<byte>, starts: seq<nat>, offsets: map<nat, nat>, ghost cs: seq<Chunk>, ghost marks: seq<bool>)
    returns (ok: bool, newCode: seq<byte>)
    requires |starts| == |cs| == |marks| && forall i :: 0 <= i < |cs| ==> starts[i] == At(cs, i)
    requires built == Flatten(Weave(cs, marks)) && Maps(cs, marks, offsets, |cs|)
    ensures ok <==> AllInReach(cs, marks)
    ensures ok ==> AllRecode(cs, marks) && newCode == Flatten(Weave(Recoded(cs, marks), marks))
  {
    hide Flatten, Weave, At, NewAt, IndexAt, Recode, Reencoded, ChunkAt, Bytes, NewIdx, AllInReach;
    newCode := built;
    PartlyEnds(cs, marks);
    AllReach(cs, marks);
    for i := 0 to |starts|
      invariant RecodesTo(cs, marks, i) && newCode == Flatten(Weave(Partly(cs, marks, i), marks))
    {
      MapsHere(cs, marks, offsets, i);
      PatchStep(cs, marks, i);
      ReencodedIsRecode(cs, marks, offsets, i);
      var oldPc := starts[i];
      var newPc := offsets[oldPc];
      var c := ChunkAt(newCode, newPc);
      var c' := Reencoded(c, oldPc, newPc, offsets);
      if c'.None? {
        return false, [];
      }
      newCode := newCode[..newPc] + Bytes(c'.value) + newCode[newPc + Len(c'.value)..];
    }
    ok := true;
  }

  // ---- Any code splits ------------------------------------------------------

  lemma HalfBack(code: seq<byte>, pc: nat)
    requires pc + 2 <= |code|
    ensures HalfBytes(HalfAt(code, pc)) == code[pc..pc + 2]
  {
  }

  lemma BytesBack(code: seq<byte>, pc: nat)
    requires pc + 2 <= |code| && (HalfAt(code, pc) % 4 == 3 ==> pc + 4 <= |code|)
    ensures
      var c := ChunkAt(code, pc);
      pc + Len(c) <= |code| && Bytes(c) == code[pc..pc + Len(c)]
  {
    HalfBack(code, pc);
    if HalfAt(code, pc) % 4 == 3 {
      HalfBack(code, pc + 2);
      var w := WordAt(code, pc);
      assert w % 0x1_0000 == HalfAt(code, pc) && w / 0x1_0000 == HalfAt(code, pc + 2);
      assert code[pc..pc + 2] + code[pc + 2..pc + 4] == code[pc..pc + 4];
    }
  }

  lemma ChunkLen(code: seq<byte>, pc: nat)
    requires pc + 2 <= |code| && (HalfAt(code, pc) % 4 == 3 ==> pc + 4 <= |code|)
    ensures Len(ChunkAt(code, pc)) == if HalfAt(code, pc) % 4 == 3 then 4 else 2
  {
  }

  /** Any code is a list of instructions laid end to end, and a tail. */
  lemma {:induction false} Instructions(code: seq<byte>, pc: nat, done: seq<Chunk>) returns (cs: seq<Chunk>, tail: seq<byte>)
    requires pc <= |code| && Flatten(done) == code[..pc]
    ensures code == Flatten(cs) + tail && IsTail(tail)
    decreases |code| - pc
  {
    hide ChunkAt, Bytes, Flatten;
    if |code| - pc < 2 || (HalfAt(code, pc) % 4 == 3 && |code| - pc < 4) {
      cs, tail := done, code[pc..];
      assert code == code[..pc] + code[pc..];
    } else {
      var c := ChunkAt(code, pc);
      BytesBack(code, pc);
      ChunkLen(code, pc);
      FlattenAppend(done, c);
      assert code[..pc] + code[pc..pc + Len(c)] == code[..pc + Len(c)];
      cs, tail := Instructions(code, pc + Len(c), done + [c]);
    }
  }

  // ---- The pass -------------------------------------------------------------

  /** When the pass returns a program: always when nothing is to be injected into
      code without a lone last byte, and otherwise when every branch is in reach.
      With a truncated instruction at the end and something to inject there is
      none: re-encoding reads four bytes at the tail. */
  predicate Returns(cs: seq<Chunk>, tail: seq<byte>, extra: set<nat>) {
    if tail == [] then true !in Marks(cs, extra) || AllInReach(cs, Marks(cs, extra))
    else |tail| > 1 && true !in Marks(Seen(cs, tail), extra)
  }

  lemma NeedsStart(ds: seq<Chunk>, extra: set<nat>, starts: seq<nat>)
    requires |starts| == |ds| && Needs(ds, extra) != {}
    ensures starts != []
  {
    hide At, TargetSet, PostSet;
    var t :| t in Needs(ds, extra);
    assert IndexAt(ds, t).Some?;
  }

  lemma StartsInside(cs: seq<Chunk>, tail: seq<byte>, starts: seq<nat>, n: nat)
    requires n == At(cs, |cs|) + |tail| && |starts| == |Seen(cs, tail)|
    requires forall i :: 0 <= i < |starts| ==> starts[i] == At(Seen(cs, tail), i)
    ensures forall t <- starts :: t < n
  {
    hide At;
    forall i | 0 <= i < |starts| ensures starts[i] < n {
      SeenAt(cs, tail, i);
      if i < |cs| {
        AtMono(cs, i, |cs|);
      }
    }
  }

  lemma StartsAre(cs: seq<Chunk>, starts: seq<nat>)
    requires |starts| == |cs| && forall i :: 0 <= i < |cs| ==> starts[i] == At(cs, i)
    ensures forall t :: t in starts <==> IndexAt(cs, t).Some?
  {
    hide At, IndexAt;
    forall t ensures t in starts <==> IndexAt(cs, t).Some? {
      if IndexAt(cs, t).Some? {
        assert starts[IndexAt(cs, t).value] == t;
      }
      if t in starts {
        var k :| 0 <= k < |starts| && starts[k] == t;
        IndexUnique(cs, k);
      }
    }
  }

  lemma Identity(cs: seq<Chunk>, marks: seq<bool>, starts: seq<nat>)
    requires |starts| == |cs| == |marks| && true !in marks && forall i :: 0 <= i < |cs| ==> starts[i] == At(cs, i)
    ensures Maps(cs, marks, map o | o in starts :: o, |cs|)
  {
    hide At, NewAt, IndexAt;
    StartsAre(cs, starts);
    forall k | 0 <= k < |cs| ensures At(cs, k) in starts && NewAt(cs, marks, k) == At(cs, k) {
      assert starts[k] in starts;
      NoMarks(cs, marks, k);
    }
  }

  /** `align_branch_targets` on the bytes: the new bytes are those of the specified
      program and the map is the specified offset map. */
  method AlignBranchTargets(code: seq<byte>, extra: set<nat>, ghost cs: seq<Chunk>, ghost tail: seq<byte>)
    returns (ok: bool, newCode: seq<byte>, offsets: map<nat, nat>)
    requires code == Flatten(cs) + tail && IsTail(tail)
    ensures ok <==> Returns(cs, tail, extra)
    ensures ok ==> offsets == RemapOf(Seen(cs, tail), Marks(Seen(cs, tail), extra))
    ensures ok && tail == [] ==> Align(cs, extra).Linked? && newCode == Flatten(Align(cs, extra).code)
    ensures ok && tail != [] ==> newCode == code && forall o <- offsets :: offsets[o] == o
  {
    hide Flatten, At, NewAt, IndexAt, Recode, Targeted, PostTerm, TargetSet, PostSet, Maps, RemapOf, Seen,
         AllInReach;
    ghost var ds := Seen(cs, tail);
    ghost var marks := Marks(ds, extra);
    AlignSucceeds(cs, extra);
    newCode, offsets := [], map[];
    var starts, post, targets;
    ok, starts, post, targets := Scan(code, cs, tail);
    if !ok {
      return;
    }
    var needs := set t <- targets + extra | t !in post && t in starts;
    StartsAre(ds, starts);
    ScanRead(code, cs, tail, |cs|);
    StartsInside(cs, tail, starts, |code|);
    assert needs == Needs(ds, extra);
    NothingNeeded(ds, extra);
    if needs == {} {
      Identity(ds, marks, starts);
      offsets := map o | o in starts :: o;
      MapsAll(ds, marks, offsets);
      return true, code, offsets;
    }
    NeedsStart(ds, extra, starts);
    var last := starts[|starts| - 1];
    SeenEnd(cs, tail);
    ScanRead(code, cs, tail, |ds| - 1);
    SeenAt(cs, tail, |ds| - 1);
    if HalfAt(code, last) % 4 == 3 && last + 4 > |code| {
      return false, [], map[];
    }
    forall k | 0 <= k < |cs| ensures At(cs, k) in needs <==> marks[k] {
      NeedsMarks(cs, extra, k);
    }
    assert code == Flatten(cs);
    newCode, offsets := Build(code, starts, needs, cs, marks);
    MapsAll(cs, marks, offsets);
    ok, newCode := Reencode(newCode, starts, offsets, cs, marks);
  }
}
