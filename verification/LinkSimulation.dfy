/** Fallthrough injection preserves behaviour: a stuttering bisimulation between
    the program before and after the pass (nub-linker `link.rs`).

    A machine is any function from an instruction (without its displacement),
    its own address and the address after it, and a state to the next state and
    where control goes. Each program runs with its own addresses: a computed
    address is followed as it is. So the two runs hold different code pointers,
    and what is proved relates them: a relation between old and new states that
    the machine respects one instruction at a time, code pointers being related
    by the offset map, holds along whole runs. */
module LinkSimulation {
  import opened Prelude
  import opened Encoding
  import opened Chunks
  import opened Inject

  datatype Flow = Fall | Take | Indirect(to: int) | Halt

  datatype Stepped<S> = Stepped(s: S, flow: Flow)

  datatype State<S> = Running(k: nat, s: S) | Stopped(s: S)

  type Exec<!S> = (Chunk, int, int, S) -> Stepped<S>

  /** Control arrives at a byte offset. */
  function Land<S>(code: seq<Chunk>, a: int, s: S): State<S> {
    match IndexAt(code, a)
    case Some(j) => Running(j, s)
    case None => Stopped(s)
  }

  function Follow<S>(code: seq<Chunk>, k: nat, r: Stepped<S>): State<S>
    requires k < |code|
  {
    match r.flow
    case Fall => if k + 1 < |code| then Running(k + 1, r.s) else Stopped(r.s)
    case Take => (match Disp(code[k]) case None => Stopped(r.s) case Some(d) => Land(code, At(code, k) + d, r.s))
    case Indirect(to) => Land(code, to, r.s)
    case Halt => Stopped(r.s)
  }

  function Step<S>(code: seq<Chunk>, exec: Exec<S>, k: nat, s: S): State<S>
    requires k < |code|
  {
    Follow(code, k, exec(Shape(code[k]), At(code, k), At(code, k + 1), s))
  }

  function After<S>(code: seq<Chunk>, exec: Exec<S>, st: State<S>, n: nat): State<S>
    decreases n
  {
    if n == 0 || st.Stopped? || st.k >= |code| then st else After(code, exec, Step(code, exec, st.k, st.s), n - 1)
  }

  lemma AfterNone<S>(code: seq<Chunk>, exec: Exec<S>, st: State<S>, n: nat)
    requires n == 0 || st.Stopped?
    ensures After(code, exec, st, n) == st
  {
  }

  lemma AfterFirst<S>(code: seq<Chunk>, exec: Exec<S>, k: nat, s: S, n: nat)
    requires k < |code| && n > 0
    ensures After(code, exec, Running(k, s), n) == After(code, exec, Step(code, exec, k, s), n - 1)
  {
    hide Step;
  }

  lemma AfterOne<S>(code: seq<Chunk>, exec: Exec<S>, k: nat, s: S)
    requires k < |code|
    ensures After(code, exec, Running(k, s), 1) == Step(code, exec, k, s)
  {
    hide Step;
    AfterFirst(code, exec, k, s, 1);
  }

  lemma {:induction false} AfterSum<S>(code: seq<Chunk>, exec: Exec<S>, st: State<S>, a: nat, b: nat)
    ensures After(code, exec, st, a + b) == After(code, exec, After(code, exec, st, a), b)
    decreases a
  {
    hide Step;
    if a > 0 && st.Running? && st.k < |code| {
      AfterSum(code, exec, Step(code, exec, st.k, st.s), a - 1, b);
    }
  }

  // ---- The new layout -------------------------------------------------------

  /** An instruction of the new program starts at offset `a`: an old one moved
      there, or the fallthrough in front of one. */
  predicate Occupied(cs: seq<Chunk>, marks: seq<bool>, a: int)
    requires |cs| == |marks|
  {
    exists j :: 0 <= j < |cs| && (NewAt(cs, marks, j) == a || (marks[j] && NewAt(cs, marks, j) - 4 == a))
  }

  /** Old instruction `i` in new code, with shape `shapes[i]`: at its new offset, a
      static branch re-targeted, and behind a fallthrough if it is marked. */
  predicate LaidAt(cs: seq<Chunk>, marks: seq<bool>, shapes: seq<Chunk>, code: seq<Chunk>, i: nat)
    requires i < |cs| == |marks| == |shapes|
  {
    var k, d := NewIdx(marks, i), Disp(cs[i]);
    && k < |code| && At(code, k) == NewAt(cs, marks, i) && Len(code[k]) == Len(cs[i]) && Shape(code[k]) == shapes[i]
    && Disp(code[k]).Some? == d.Some?
    && (d.Some? ==>
          var t := IndexAt(cs, At(cs, i) + d.value);
          if t.Some? then NewAt(cs, marks, i) + Disp(code[k]).value == NewAt(cs, marks, t.value) else Disp(code[k]) == d)
    && (marks[i] ==> i > 0 && !IsTerm(cs[i - 1]) && code[k - 1] == FALLTHROUGH)
  }

  predicate Laid(cs: seq<Chunk>, marks: seq<bool>, shapes: seq<Chunk>, code: seq<Chunk>) {
    && |cs| == |marks| == |shapes|
    && |code| == (if cs == [] then 0 else NewIdx(marks, |cs| - 1) + 1)
    && forall i :: 0 <= i < |cs| ==> LaidAt(cs, marks, shapes, code, i)
  }

  lemma LaidHere(cs: seq<Chunk>, marks: seq<bool>, shapes: seq<Chunk>, code: seq<Chunk>, i: nat)
    requires Laid(cs, marks, shapes, code) && i < |cs|
    ensures |cs| == |marks| == |shapes| && LaidAt(cs, marks, shapes, code, i)
  {
    hide LaidAt;
  }

  lemma LaidSize(cs: seq<Chunk>, marks: seq<bool>, shapes: seq<Chunk>, code: seq<Chunk>)
    requires Laid(cs, marks, shapes, code)
    ensures |cs| == |marks| == |shapes| && |code| == (if cs == [] then 0 else NewIdx(marks, |cs| - 1) + 1)
  {
    hide LaidAt;
  }

  function Shapes(cs: seq<Chunk>): (r: seq<Chunk>)
    ensures |r| == |cs| && forall i :: 0 <= i < |cs| ==> r[i] == Shape(cs[i])
  {
    seq(|cs|, i requires 0 <= i < |cs| => Shape(cs[i]))
  }

  lemma LastIdx(news: seq<Chunk>, marks: seq<bool>)
    requires |news| == |marks| > 0
    ensures |Weave(news, marks)| == NewIdx(marks, |marks| - 1) + 1
  {
    WeaveLen(news, marks, |marks| - 1);
  }

  lemma WovenLaidAt(cs: seq<Chunk>, marks: seq<bool>, news: seq<Chunk>, code: seq<Chunk>, i: nat)
    requires Woven(cs, marks, news, code) && i < |cs|
    ensures |cs| == |marks| && LaidAt(cs, marks, Shapes(cs), code, i)
  {
    hide Shape, IsTerm, Disp, IndexAt, At, NewAt, NewIdx;
    WovenOffset(cs, marks, news, code, i);
    assert Relinked(cs, marks, i, news[i]);
  }

  /** Injection lays the old instructions out with their shapes unchanged. */
  lemma WovenLaid(cs: seq<Chunk>, marks: seq<bool>, news: seq<Chunk>, code: seq<Chunk>)
    requires Woven(cs, marks, news, code)
    ensures Laid(cs, marks, Shapes(cs), code)
  {
    hide LaidAt, Relinked, IsTerm;
    if cs != [] {
      LastIdx(news, marks);
    }
    forall i | 0 <= i < |cs| ensures LaidAt(cs, marks, Shapes(cs), code, i) {
      WovenLaidAt(cs, marks, news, code, i);
    }
  }

  /** Every position of the new code is an old instruction or a fallthrough. */
  lemma {:induction false} Position(marks: seq<bool>, n: nat, k: nat) returns (j: nat)
    requires 0 < n <= |marks| && k <= NewIdx(marks, n - 1)
    ensures j < n && (k == NewIdx(marks, j) || (marks[j] && k == NewIdx(marks, j) - 1))
  {
    if n > 1 && k <= NewIdx(marks, n - 2) {
      j := Position(marks, n - 1, k);
    } else {
      j := n - 1;
    }
  }

  lemma OccupiedAt(cs: seq<Chunk>, marks: seq<bool>, shapes: seq<Chunk>, code: seq<Chunk>, j: nat)
    requires Laid(cs, marks, shapes, code) && j < |cs|
    ensures |cs| == |marks| && IndexAt(code, NewAt(cs, marks, j)) == Some(NewIdx(marks, j))
    ensures marks[j] ==> IndexAt(code, NewAt(cs, marks, j) - 4) == Some(NewIdx(marks, j) - 1)
    ensures marks[j] ==> At(code, NewIdx(marks, j) - 1) == NewAt(cs, marks, j) - 4
  {
    hide Laid, IndexAt, NewAt, Disp, Shape, IsTerm;
    LaidHere(cs, marks, shapes, code, j);
    IndexUnique(code, NewIdx(marks, j));
    if marks[j] {
      IndexUnique(code, NewIdx(marks, j) - 1);
    }
  }

  /** Where instructions start in the new code, from the old code and the marks
      alone. */
  lemma OccupiedExactly(cs: seq<Chunk>, marks: seq<bool>, shapes: seq<Chunk>, code: seq<Chunk>, a: int)
    requires Laid(cs, marks, shapes, code) && |cs| == |marks|
    ensures IndexAt(code, a).Some? <==> Occupied(cs, marks, a)
  {
    hide Laid, IndexAt, At, NewAt, NewIdx;
    LaidSize(cs, marks, shapes, code);
    if IndexAt(code, a).Some? {
      var k := IndexAt(code, a).value;
      var j := Position(marks, |cs|, k);
      LaidHere(cs, marks, shapes, code, j);
      OccupiedAt(cs, marks, shapes, code, j);
    }
    if Occupied(cs, marks, a) {
      var j :| 0 <= j < |cs| && (NewAt(cs, marks, j) == a || (marks[j] && NewAt(cs, marks, j) - 4 == a));
      OccupiedAt(cs, marks, shapes, code, j);
    }
  }

  // ---- Old and new addresses, results and states ----------------------------

  /** Old address `a` and new address `b` name the same instruction, or neither
      names one. */
  predicate Ref(cs: seq<Chunk>, marks: seq<bool>, a: int, b: int)
    requires |cs| == |marks|
  {
    match IndexAt(cs, a)
    case Some(i) => b == NewAt(cs, marks, i)
    case None => !Occupied(cs, marks, b)
  }

  predicate SameFlow(cs: seq<Chunk>, marks: seq<bool>, f: Flow, g: Flow)
    requires |cs| == |marks|
  {
    if f.Indirect? then g.Indirect? && Ref(cs, marks, f.to, g.to) else g == f
  }

  /** What old instruction `i` does in the old program, and in the new one. */
  function OldResult<S>(cs: seq<Chunk>, exec: Exec<S>, i: nat, s: S): Stepped<S>
    requires i < |cs|
  {
    exec(Shape(cs[i]), At(cs, i), At(cs, i + 1), s)
  }

  function NewResult<T>(cs: seq<Chunk>, marks: seq<bool>, shapes: seq<Chunk>, exec: Exec<T>, i: nat, t: T): Stepped<T>
    requires i < |cs| == |marks| == |shapes|
  {
    exec(shapes[i], NewAt(cs, marks, i), NewAt(cs, marks, i) + Len(cs[i]), t)
  }

  /** The address after a terminator of the old program relates to the address
      after it in the new one. */
  predicate NextRef(cs: seq<Chunk>, marks: seq<bool>, i: nat)
    requires i < |cs| == |marks|
  {
    IsTerm(cs[i]) ==> Ref(cs, marks, At(cs, i + 1), NewAt(cs, marks, i) + Len(cs[i]))
  }

  /** Two machines respect a relation: each instruction takes related states to
      related states and flows, given its own address in each program and, for a
      terminator, related next addresses. Of the next address of any other
      instruction nothing is known. */
  ghost predicate Respects<S(!new), T(!new)>(
    cs: seq<Chunk>, marks: seq<bool>, shapes: seq<Chunk>, exec: Exec<S>, exec': Exec<T>, rel: (S, T) -> bool)
    requires |cs| == |marks| == |shapes|
  {
    forall i: nat, s: S, t: T :: i < |cs| && NextRef(cs, marks, i) && rel(s, t) ==>
      var r, r' := OldResult(cs, exec, i, s), NewResult(cs, marks, shapes, exec', i, t);
      rel(r.s, r'.s) && SameFlow(cs, marks, r.flow, r'.flow)
  }

  /** The machine runs a fallthrough as the no-op it is. */
  ghost predicate Inert<S(!new)>(exec: Exec<S>) {
    forall here, next, s :: exec(FALLTHROUGH, here, next, s) == Stepped(s, Fall)
  }

  /** The new program is at the old program's instruction, in a related state. */
  predicate Matches<S, T>(marks: seq<bool>, rel: (S, T) -> bool, st: State<S>, st': State<T>) {
    && rel(st.s, st'.s)
    && match st
       case Stopped(_) => st'.Stopped?
       case Running(i, _) => st'.Running? && i < |marks| && st'.k == NewIdx(marks, i)
  }

  /** Or it is at the fallthrough in front of that instruction. */
  predicate Shows<S, T>(marks: seq<bool>, rel: (S, T) -> bool, st: State<S>, st': State<T>) {
    || Matches(marks, rel, st, st')
    || (rel(st.s, st'.s) && st.Running? && st'.Running? && st.k < |marks| && marks[st.k] && st'.k == NewIdx(marks, st.k) - 1)
  }

  /** A branch to anywhere but an instruction start keeps its displacement; it
      does not happen to hit an instruction of the new layout. */
  predicate EdgeOk(cs: seq<Chunk>, marks: seq<bool>, i: nat)
    requires i < |cs| == |marks|
  {
    var d := Disp(cs[i]);
    d.Some? && IndexAt(cs, At(cs, i) + d.value).None? ==> !Occupied(cs, marks, NewAt(cs, marks, i) + d.value)
  }

  predicate EdgesOk(cs: seq<Chunk>, marks: seq<bool>)
    requires |cs| == |marks|
  {
    forall i :: 0 <= i < |cs| ==> EdgeOk(cs, marks, i)
  }

  /** As is the case when every static target is an instruction start. */
  lemma TargetsSuffice(cs: seq<Chunk>, marks: seq<bool>)
    requires |cs| == |marks|
    requires forall i :: 0 <= i < |cs| && Disp(cs[i]).Some? ==> IndexAt(cs, At(cs, i) + Disp(cs[i]).value).Some?
    ensures EdgesOk(cs, marks)
  {
    hide Disp, IndexAt, At, NewAt;
  }

  // ---- Return addresses -----------------------------------------------------

  /** No instruction starts at the end of the code, old or new. */
  lemma EndIsNowhere(cs: seq<Chunk>, marks: seq<bool>)
    requires |cs| == |marks| && cs != []
    ensures IndexAt(cs, At(cs, |cs|)) == None
    ensures !Occupied(cs, marks, NewAt(cs, marks, |cs| - 1) + Len(cs[|cs| - 1]))
  {
    hide IndexAt, At, NewAt;
    var r := IndexAt(cs, At(cs, |cs|));
    if r.Some? {
      AtMono(cs, r.value, |cs|);
    }
    var last := |cs| - 1;
    forall j | 0 <= j < last ensures NewAt(cs, marks, j) < NewAt(cs, marks, last) {
      NewAtMono(cs, marks, j, last);
    }
  }

  /** The address after a terminator maps to map[pc] + length, so return
      addresses stay exact; elsewhere at most one fallthrough comes between. */
  lemma ReturnAddresses(cs: seq<Chunk>, marks: seq<bool>, shapes: seq<Chunk>, code: seq<Chunk>, i: nat)
    requires Laid(cs, marks, shapes, code) && i < |cs|
    ensures |cs| == |marks| && NextRef(cs, marks, i)
    ensures i + 1 < |cs| ==> NewAt(cs, marks, i + 1) - NewAt(cs, marks, i) - Len(cs[i]) in {0, 4}
  {
    hide Laid, IsTerm, IndexAt, At, Shape, Disp, NewIdx;
    LaidSize(cs, marks, shapes, code);
    if i + 1 < |cs| {
      LaidHere(cs, marks, shapes, code, i + 1);
      IndexUnique(cs, i + 1);
    } else {
      EndIsNowhere(cs, marks);
    }
  }

  /** In terms of the map the pass returns. */
  lemma ReturnOffsets(cs: seq<Chunk>, extra: set<nat>, i: nat)
    requires Align(cs, extra).Linked? && i + 1 < |cs|
    ensures
      var l := Align(cs, extra);
      && (IsTerm(cs[i]) ==> l.offsets[i + 1] == l.offsets[i] + Len(cs[i]))
      && l.offsets[i + 1] - l.offsets[i] - Len(cs[i]) in {0, 4}
  {
    hide Align, IsTerm, Relinked;
    var news := AlignWoven(cs, extra);
  }

  // ---- One step -------------------------------------------------------------

  lemma LandMatches<T>(cs: seq<Chunk>, marks: seq<bool>, shapes: seq<Chunk>, code: seq<Chunk>, i: nat, t: T)
    requires Laid(cs, marks, shapes, code) && i < |cs|
    ensures |cs| == |marks| && Land(code, NewAt(cs, marks, i), t) == Running(NewIdx(marks, i), t)
  {
    hide Laid, IndexAt, At, NewAt;
    OccupiedAt(cs, marks, shapes, code, i);
  }

  lemma FallMatches(cs: seq<Chunk>, marks: seq<bool>, shapes: seq<Chunk>, code: seq<Chunk>, i: nat)
    requires Laid(cs, marks, shapes, code) && i < |cs|
    ensures |cs| == |marks|
    ensures i + 1 < |cs| ==>
      NewIdx(marks, i) + 1 < |code| && NewIdx(marks, i) + 1 == NewIdx(marks, i + 1) - if marks[i + 1] then 1 else 0
    ensures i + 1 == |cs| ==> NewIdx(marks, i) + 1 == |code|
  {
    hide Laid, At, NewAt, Shape, Disp, IsTerm, IndexAt;
    LaidSize(cs, marks, shapes, code);
    if i + 1 < |cs| {
      LaidHere(cs, marks, shapes, code, i + 1);
    }
  }

  /** A taken edge pc -> T becomes map[pc] -> map[T] exactly; any other branch
      keeps its displacement. */
  lemma TakeMatches<T>(cs: seq<Chunk>, marks: seq<bool>, shapes: seq<Chunk>, code: seq<Chunk>, i: nat, t: T)
    requires Laid(cs, marks, shapes, code) && i < |cs| == |marks|
    ensures NewIdx(marks, i) < |code|
    ensures
      var c, k := cs[i], NewIdx(marks, i);
      && Disp(code[k]).Some? == Disp(c).Some?
      && (Disp(c).Some? ==>
            var j := IndexAt(cs, At(cs, i) + Disp(c).value);
            Land(code, At(code, k) + Disp(code[k]).value, t)
            == if j.Some? then Running(NewIdx(marks, j.value), t) else Land(code, NewAt(cs, marks, i) + Disp(c).value, t))
  {
    hide Laid, Shape, IsTerm, At, NewAt, IndexAt, Disp, Land;
    LaidHere(cs, marks, shapes, code, i);
    if Disp(cs[i]).Some? {
      var j := IndexAt(cs, At(cs, i) + Disp(cs[i]).value);
      if j.Some? {
        LandMatches(cs, marks, shapes, code, j.value, t);
      }
    }
  }

  lemma FallShown<S, T>(
    cs: seq<Chunk>, marks: seq<bool>, shapes: seq<Chunk>, code: seq<Chunk>, rel: (S, T) -> bool, i: nat, s: S, t: T)
    requires Laid(cs, marks, shapes, code) && i < |cs| == |marks| && rel(s, t)
    ensures NewIdx(marks, i) < |code|
    ensures Shows(marks, rel, Follow(cs, i, Stepped(s, Fall)), Follow(code, NewIdx(marks, i), Stepped(t, Fall)))
  {
    hide Laid, LaidAt, At, NewAt, IndexAt, Disp, NewIdx;
    FallMatches(cs, marks, shapes, code, i);
  }

  /** Taking a branch matches exactly if its edge is all right. */
  lemma TakeExact<S, T>(
    cs: seq<Chunk>, marks: seq<bool>, shapes: seq<Chunk>, code: seq<Chunk>, rel: (S, T) -> bool, i: nat, s: S, t: T)
    requires Laid(cs, marks, shapes, code) && i < |cs| == |marks| && rel(s, t)
    ensures NewIdx(marks, i) < |code|
    ensures Matches(marks, rel, Follow(cs, i, Stepped(s, Take)), Follow(code, NewIdx(marks, i), Stepped(t, Take)))
      <==> EdgeOk(cs, marks, i)
  {
    hide Laid, LaidAt, At, NewAt, IndexAt, Disp, NewIdx, Occupied;
    TakeMatches(cs, marks, shapes, code, i, t);
    if Disp(cs[i]).Some? {
      OccupiedExactly(cs, marks, shapes, code, NewAt(cs, marks, i) + Disp(cs[i]).value);
    }
  }

  /** An indirect edge to a related address. */
  lemma IndirectShown<S, T>(
    cs: seq<Chunk>, marks: seq<bool>, shapes: seq<Chunk>, code: seq<Chunk>, rel: (S, T) -> bool, a: int, b: int, s: S, t: T)
    requires Laid(cs, marks, shapes, code) && |cs| == |marks| && Ref(cs, marks, a, b) && rel(s, t)
    ensures Matches(marks, rel, Land(cs, a, s), Land(code, b, t))
  {
    hide Laid, At, NewAt, IndexAt, NewIdx, Occupied;
    OccupiedExactly(cs, marks, shapes, code, b);
    if IndexAt(cs, a).Some? {
      LandMatches(cs, marks, shapes, code, IndexAt(cs, a).value, t);
    }
  }

  lemma FollowShown<S, T>(
    cs: seq<Chunk>, marks: seq<bool>, shapes: seq<Chunk>, code: seq<Chunk>, rel: (S, T) -> bool, i: nat,
    r: Stepped<S>, r': Stepped<T>)
    requires Laid(cs, marks, shapes, code) && i < |cs| == |marks| && EdgesOk(cs, marks)
    requires rel(r.s, r'.s) && SameFlow(cs, marks, r.flow, r'.flow)
    ensures NewIdx(marks, i) < |code|
    ensures Shows(marks, rel, Follow(cs, i, r), Follow(code, NewIdx(marks, i), r'))
  {
    hide Laid, At, NewAt, IndexAt, Disp, NewIdx, EdgeOk, Land, Ref, IsTerm, Shape;
    LaidHere(cs, marks, shapes, code, i);
    if r.flow.Fall? {
      FallShown(cs, marks, shapes, code, rel, i, r.s, r'.s);
    } else if r.flow.Take? {
      TakeExact(cs, marks, shapes, code, rel, i, r.s, r'.s);
    } else if r.flow.Indirect? {
      IndirectShown(cs, marks, shapes, code, rel, r.flow.to, r'.flow.to, r.s, r'.s);
    }
  }

  /** The new program runs old instruction `i` at its new address. */
  lemma NewStep<T>(cs: seq<Chunk>, marks: seq<bool>, shapes: seq<Chunk>, code: seq<Chunk>, exec: Exec<T>, i: nat, t: T)
    requires Laid(cs, marks, shapes, code) && i < |cs| == |marks| == |shapes|
    ensures
      var k := NewIdx(marks, i);
      k < |code| && Step(code, exec, k, t) == Follow(code, k, NewResult(cs, marks, shapes, exec, i, t))
  {
    hide Laid, Shape, IsTerm, Disp, IndexAt, Follow, NewAt;
    LaidHere(cs, marks, shapes, code, i);
  }

  /** One old step is one new step, plus one through a fallthrough if the step
      falls into a target that got one. */
  lemma StepMatches<S(!new), T(!new)>(
    cs: seq<Chunk>, marks: seq<bool>, shapes: seq<Chunk>, code: seq<Chunk>, exec: Exec<S>, exec': Exec<T>, rel: (S, T) -> bool,
    i: nat, s: S, t: T)
    requires Laid(cs, marks, shapes, code) && i < |cs| == |marks| == |shapes| && EdgesOk(cs, marks)
    requires Respects(cs, marks, shapes, exec, exec', rel) && rel(s, t)
    ensures NewIdx(marks, i) < |code|
    ensures Shows(marks, rel, Step(cs, exec, i, s), Step(code, exec', NewIdx(marks, i), t))
  {
    hide Laid, Shape, At, NewAt, Follow, NewIdx, Shows, EdgesOk, NextRef, SameFlow;
    ReturnAddresses(cs, marks, shapes, code, i);
    NewStep(cs, marks, shapes, code, exec', i, t);
    FollowShown(cs, marks, shapes, code, rel, i, OldResult(cs, exec, i, s), NewResult(cs, marks, shapes, exec', i, t));
  }

  lemma FallthroughShape()
    ensures Shape(FALLTHROUGH) == FALLTHROUGH
  {
    Whole(0x400B);
  }

  /** The inserted instruction steps to its target and changes nothing. */
  lemma FallthroughStep<T(!new)>(
    cs: seq<Chunk>, marks: seq<bool>, shapes: seq<Chunk>, code: seq<Chunk>, exec: Exec<T>, j: nat, t: T)
    requires Laid(cs, marks, shapes, code) && Inert(exec) && j < |cs| == |marks| && marks[j]
    ensures NewIdx(marks, j) - 1 < |code|
    ensures Step(code, exec, NewIdx(marks, j) - 1, t) == Running(NewIdx(marks, j), t)
  {
    hide Laid, At, NewAt, IndexAt;
    LaidHere(cs, marks, shapes, code, j);
    FallthroughShape();
    hide Shape, Disp;
  }

  // ---- Whole runs -----------------------------------------------------------

  /** One more step of the new program, or two, matches one old step. */
  lemma CatchUp<S(!new), T(!new)>(
    cs: seq<Chunk>, marks: seq<bool>, shapes: seq<Chunk>, code: seq<Chunk>, exec: Exec<S>, exec': Exec<T>, rel: (S, T) -> bool,
    st: State<S>, st': State<T>)
    returns (m: nat)
    requires Laid(cs, marks, shapes, code) && |cs| == |marks| == |shapes| && EdgesOk(cs, marks)
    requires Respects(cs, marks, shapes, exec, exec', rel) && Inert(exec')
    requires st.Running? && Matches(marks, rel, st, st')
    ensures 1 <= m <= 2
    ensures Matches(marks, rel, Step(cs, exec, st.k, st.s), After(code, exec', st', m))
  {
    hide Laid, Step, EdgesOk, Inert, NewIdx, After, Respects;
    StepMatches(cs, marks, shapes, code, exec, exec', rel, st.k, st.s, st'.s);
    var next, next' := Step(cs, exec, st.k, st.s), Step(code, exec', st'.k, st'.s);
    m := 1;
    AfterOne(code, exec', st'.k, st'.s);
    if !Matches(marks, rel, next, next') {
      m := 2;
      FallthroughStep(cs, marks, shapes, code, exec', next.k, next'.s);
      AfterFirst(code, exec', st'.k, st'.s, 2);
      AfterOne(code, exec', next'.k, next'.s);
    }
  }

  /** Every run of the old program is matched: after `n` old steps the new
      program is at the matching state, in at most twice the steps. */
  lemma {:induction false} OldRunMatches<S(!new), T(!new)>(
    cs: seq<Chunk>, marks: seq<bool>, shapes: seq<Chunk>, code: seq<Chunk>, exec: Exec<S>, exec': Exec<T>, rel: (S, T) -> bool,
    st: State<S>, st': State<T>, n: nat)
    returns (m: nat)
    requires Laid(cs, marks, shapes, code) && |cs| == |marks| == |shapes| && EdgesOk(cs, marks)
    requires Respects(cs, marks, shapes, exec, exec', rel) && Inert(exec')
    requires Matches(marks, rel, st, st')
    ensures m <= 2 * n
    ensures Matches(marks, rel, After(cs, exec, st, n), After(code, exec', st', m))
    decreases n
  {
    hide Laid, Step, EdgesOk, Inert, NewIdx, After, Respects;
    if n > 0 && st.Running? {
      var next := Step(cs, exec, st.k, st.s);
      AfterFirst(cs, exec, st.k, st.s, n);
      var first := CatchUp(cs, marks, shapes, code, exec, exec', rel, st, st');
      var next' := After(code, exec', st', first);
      var rest := OldRunMatches(cs, marks, shapes, code, exec, exec', rel, next, next', n - 1);
      AfterSum(code, exec', st', first, rest);
      m := first + rest;
    } else {
      AfterNone(cs, exec, st, n);
      AfterNone(code, exec', st', 0);
      m := 0;
    }
  }

  /** One step of the new program, wherever it shows an old state. */
  lemma ShownStep<S(!new), T(!new)>(
    cs: seq<Chunk>, marks: seq<bool>, shapes: seq<Chunk>, code: seq<Chunk>, exec: Exec<S>, exec': Exec<T>, rel: (S, T) -> bool,
    st: State<S>, st': State<T>)
    returns (d: nat)
    requires Laid(cs, marks, shapes, code) && |cs| == |marks| == |shapes| && EdgesOk(cs, marks)
    requires Respects(cs, marks, shapes, exec, exec', rel) && Inert(exec')
    requires Shows(marks, rel, st, st')
    ensures d <= 1 && Shows(marks, rel, After(cs, exec, st, d), After(code, exec', st', 1))
  {
    hide Laid, Step, EdgesOk, Inert, NewIdx, After, Respects;
    if st.Stopped? {
      d := 0;
      AfterNone(cs, exec, st, 0);
      AfterNone(code, exec', st', 1);
    } else if Matches(marks, rel, st, st') {
      d := 1;
      StepMatches(cs, marks, shapes, code, exec, exec', rel, st.k, st.s, st'.s);
      AfterOne(code, exec', st'.k, st'.s);
      AfterOne(cs, exec, st.k, st.s);
    } else {
      d := 0;
      FallthroughStep(cs, marks, shapes, code, exec', st.k, st'.s);
      AfterNone(cs, exec, st, 0);
      AfterOne(code, exec', st'.k, st'.s);
    }
  }

  /** And every run of the new program is one of the old: each of its states
      shows the old state after some number of steps. */
  lemma {:induction false} NewRunMatches<S(!new), T(!new)>(
    cs: seq<Chunk>, marks: seq<bool>, shapes: seq<Chunk>, code: seq<Chunk>, exec: Exec<S>, exec': Exec<T>, rel: (S, T) -> bool,
    st: State<S>, st': State<T>, m: nat)
    returns (n: nat)
    requires Laid(cs, marks, shapes, code) && |cs| == |marks| == |shapes| && EdgesOk(cs, marks)
    requires Respects(cs, marks, shapes, exec, exec', rel) && Inert(exec')
    requires Matches(marks, rel, st, st')
    ensures n <= m
    ensures Shows(marks, rel, After(cs, exec, st, n), After(code, exec', st', m))
    decreases m
  {
    hide Laid, Step, EdgesOk, Inert, Matches, After, Respects;
    if m == 0 {
      n := 0;
      AfterNone(cs, exec, st, 0);
      AfterNone(code, exec', st', 0);
    } else {
      n := NewRunMatches(cs, marks, shapes, code, exec, exec', rel, st, st', m - 1);
      var now, now' := After(cs, exec, st, n), After(code, exec', st', m - 1);
      var d := ShownStep(cs, marks, shapes, code, exec, exec', rel, now, now');
      AfterSum(cs, exec, st, n, d);
      AfterSum(code, exec', st', m - 1, 1);
      n := n + d;
    }
  }

  /** The pass as a whole, forwards: whenever it succeeds and no branch was stray,
      `n` old steps are `m <= 2n` new ones. */
  lemma AlignForward<S(!new), T(!new)>(
    cs: seq<Chunk>, extra: set<nat>, exec: Exec<S>, exec': Exec<T>, rel: (S, T) -> bool, st: State<S>, st': State<T>, n: nat)
    returns (m: nat)
    requires Align(cs, extra).Linked? && EdgesOk(cs, Marks(cs, extra)) && Inert(exec')
    requires Respects(cs, Marks(cs, extra), Shapes(cs), exec, exec', rel)
    requires Matches(Marks(cs, extra), rel, st, st')
    ensures m <= 2 * n
    ensures Matches(Marks(cs, extra), rel, After(cs, exec, st, n), After(Align(cs, extra).code, exec', st', m))
  {
    hide Align, Woven, Laid, EdgesOk, Inert, After, Respects, Matches;
    var marks, code := Marks(cs, extra), Align(cs, extra).code;
    var news := AlignWoven(cs, extra);
    WovenLaid(cs, marks, news, code);
    m := OldRunMatches(cs, marks, Shapes(cs), code, exec, exec', rel, st, st', n);
  }

  /** And backwards: every state of a new run shows a state of the old run. */
  lemma AlignBackward<S(!new), T(!new)>(
    cs: seq<Chunk>, extra: set<nat>, exec: Exec<S>, exec': Exec<T>, rel: (S, T) -> bool, st: State<S>, st': State<T>, m: nat)
    returns (n: nat)
    requires Align(cs, extra).Linked? && EdgesOk(cs, Marks(cs, extra)) && Inert(exec')
    requires Respects(cs, Marks(cs, extra), Shapes(cs), exec, exec', rel)
    requires Matches(Marks(cs, extra), rel, st, st')
    ensures n <= m
    ensures Shows(Marks(cs, extra), rel, After(cs, exec, st, n), After(Align(cs, extra).code, exec', st', m))
  {
    hide Align, Woven, Laid, EdgesOk, Inert, After, Respects, Matches, Shows;
    var marks, code := Marks(cs, extra), Align(cs, extra).code;
    var news := AlignWoven(cs, extra);
    WovenLaid(cs, marks, news, code);
    n := NewRunMatches(cs, marks, Shapes(cs), code, exec, exec', rel, st, st', m);
  }

  // ---- Stray branches -------------------------------------------------------

  /** From instruction `i` the old program stops in one step and the new one runs
      on. */
  predicate PartWays<S(==)>(cs: seq<Chunk>, extra: set<nat>, exec: Exec<S>, i: nat, s: S) {
    && Align(cs, extra).Linked? && i < |cs|
    && After(cs, exec, Running(i, s), 1) == Stopped(s)
    && After(Align(cs, extra).code, exec, Running(NewIdx(Marks(cs, extra), i), s), 1).Running?
  }

  /** The condition is needed: a machine that takes a stray branch which hits an
      instruction of the new layout tells the two programs apart. */
  lemma StrayParts<S>(cs: seq<Chunk>, extra: set<nat>, exec: Exec<S>, i: nat, s: S)
    requires Align(cs, extra).Linked? && i < |cs| && !EdgeOk(cs, Marks(cs, extra), i)
    requires forall here, next :: exec(Shape(cs[i]), here, next, s) == Stepped(s, Take)
    ensures PartWays(cs, extra, exec, i, s)
  {
    hide Align, Woven, Laid, Shape, IndexAt, At, NewAt, Disp, NewIdx, Occupied, After, Marks, IsTerm;
    var marks, code := Marks(cs, extra), Align(cs, extra).code;
    var news := AlignWoven(cs, extra);
    WovenLaid(cs, marks, news, code);
    LaidHere(cs, marks, Shapes(cs), code, i);
    TakeMatches(cs, marks, Shapes(cs), code, i, s);
    OccupiedExactly(cs, marks, Shapes(cs), code, NewAt(cs, marks, i) + Disp(cs[i]).value);
    AfterOne(cs, exec, i, s);
    AfterOne(code, exec, NewIdx(marks, i), s);
  }

  /** Two no-ops around a branch to offset 12, which is past the end, and one more
      that is entered from outside. */
  predicate IsStray(cs: seq<Chunk>) {
    && |cs| == 4 && cs[0] == cs[2] == cs[3] && cs[0].Short? && !IsTerm(cs[0]) && Disp(cs[0]) == None
    && cs[1].Long? && Disp(cs[1]) == Some(10)
  }

  lemma StrayLayout(cs: seq<Chunk>)
    requires IsStray(cs)
    ensures At(cs, 0) == 0 && At(cs, 1) == 2 && At(cs, 2) == 6 && At(cs, 3) == 8 && IndexAt(cs, 12) == None
  {
    hide Disp, IsTerm, IndexAt;
    assert At(cs, 1) == 2;
    assert At(cs, 2) == 6;
  }

  lemma StrayMarks(cs: seq<Chunk>)
    requires IsStray(cs)
    ensures Marks(cs, {8}) == [false, false, false, true]
  {
    hide Disp, IsTerm, IndexAt, At;
    StrayLayout(cs);
    var marks := Marks(cs, {8});
    forall i | 0 <= i < 4 ensures marks[i] <==> i == 3 {
      assert Targeted(cs, {8}, i) <==> i == 3;
    }
  }

  lemma StrayRecodes(cs: seq<Chunk>)
    requires IsStray(cs)
    ensures Align(cs, {8}).Linked?
  {
    hide Disp, IsTerm, IndexAt, At, Marks, NewAt, Weave;
    StrayLayout(cs);
    StrayMarks(cs);
    var marks := Marks(cs, {8});
    forall i | 0 <= i < 4 ensures Recode(cs, marks, i).Some? {
    }
  }

  lemma StrayOffsets(cs: seq<Chunk>, marks: seq<bool>)
    requires IsStray(cs) && marks == [false, false, false, true]
    ensures NewAt(cs, marks, 1) == 2 && NewAt(cs, marks, 3) == 12
  {
    hide Disp, IsTerm;
    assert NewAt(cs, marks, 0) == 0;
    assert NewAt(cs, marks, 1) == 2;
    assert NewAt(cs, marks, 2) == 6;
  }

  /** The branch hits: the last instruction has moved to offset 12. */
  lemma StrayHits(cs: seq<Chunk>)
    requires IsStray(cs)
    ensures Align(cs, {8}).Linked? && !EdgeOk(cs, Marks(cs, {8}), 1)
  {
    hide Align, Disp, IsTerm, IndexAt, At, Marks, NewAt;
    StrayLayout(cs);
    StrayMarks(cs);
    StrayRecodes(cs);
    StrayOffsets(cs, Marks(cs, {8}));
  }

  lemma NopAndBranch()
    ensures !IsTerm(Short(1)) && Disp(Short(1)) == None && Disp(Long(0x563)) == Some(10)
  {
    Whole(1);
    Whole(0x563);
  }

  /** In code: `c.nop` and `beq x0, x0, 10`. */
  lemma StrayBranch<S>(exec: Exec<S>, s: S) returns (cs: seq<Chunk>)
    requires forall here, next :: exec(Shape(Long(0x563)), here, next, s) == Stepped(s, Take)
    ensures cs == [Short(1), Long(0x563), Short(1), Short(1)] && PartWays(cs, {8}, exec, 1, s)
  {
    hide EdgeOk, Align, Marks, Shape, PartWays, Disp, IsTerm;
    cs := [Short(1), Long(0x563), Short(1), Short(1)];
    NopAndBranch();
    StrayHits(cs);
    StrayParts(cs, {8}, exec, 1, s);
  }
}
