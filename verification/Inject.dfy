/** Fallthrough injection (nub-linker `align_branch_targets`).

    The pass puts a `fallthrough` in front of every jump target that is not
    already behind a terminator and re-encodes every static branch for the new
    layout. `Align` is the whole pass; what follows relates the old program to
    the new one. */
module Inject {
  import opened Prelude
  import opened Encoding
  import opened Chunks
  import opened Isa
  import Pre = Predecode

  /** Custom-0, funct3 100: a terminator that does nothing. */
  const FALLTHROUGH: Chunk := Long(0x400B)

  // ---- Where to inject ------------------------------------------------------

  predicate PostTerm(cs: seq<Chunk>, i: nat)
    requires i < |cs|
  {
    i == 0 || IsTerm(cs[i - 1])
  }

  /** Instruction `j` statically branches to instruction `i`. */
  predicate Goes(cs: seq<Chunk>, j: nat, i: nat)
    requires j < |cs| && i < |cs|
  {
    Disp(cs[j]).Some? && At(cs, j) + Disp(cs[j]).value == At(cs, i)
  }

  predicate Targeted(cs: seq<Chunk>, extra: set<nat>, i: nat)
    requires i < |cs|
  {
    At(cs, i) in extra || exists j :: 0 <= j < |cs| && Goes(cs, j, i)
  }

  function Marks(cs: seq<Chunk>, extra: set<nat>): (marks: seq<bool>)
    ensures |marks| == |cs|
    ensures forall i :: 0 <= i < |cs| ==> (marks[i] <==> Targeted(cs, extra, i) && !PostTerm(cs, i))
  {
    seq(|cs|, i requires 0 <= i < |cs| => Targeted(cs, extra, i) && !PostTerm(cs, i))
  }

  // ---- The new layout -------------------------------------------------------

  function Gap(mark: bool): nat {
    if mark then 4 else 0
  }

  /** New offset of old instruction `i` (the offset map). */
  function NewAt(cs: seq<Chunk>, marks: seq<bool>, i: nat): (a: nat)
    requires i < |cs| == |marks|
    ensures a % 2 == 0
  {
    (if i == 0 then 0 else NewAt(cs, marks, i - 1) + Len(cs[i - 1])) + Gap(marks[i])
  }

  lemma EvenDifference(a: nat, b: nat)
    requires a % 2 == 0 && b % 2 == 0
    ensures (a - b) % 2 == 0
  {
  }

  /** Displacement from instruction `i` to instruction `t` in the new layout. */
  function NewDisp(cs: seq<Chunk>, marks: seq<bool>, i: nat, t: nat): (d: int)
    requires i < |cs| == |marks| && t < |cs|
    ensures d % 2 == 0
  {
    var a, b := NewAt(cs, marks, t), NewAt(cs, marks, i);
    EvenDifference(a, b);
    a - b
  }

  // ---- Re-encoding ---------------------------------------------------------

  lemma Combine(q: nat, m: nat, k: nat, s: nat, t: nat)
    ensures q * (m * k) + (s * m + t) == (q * k + s) * m + t
  {
  }

  lemma Remainder(a: nat, q: nat, r: nat, n: nat, m: nat, k: nat, s: nat, t: nat)
    requires n == m * k && a == q * n + r && r == s * m + t && t < m
    ensures a % m == t
  {
    Combine(q, m, k, s, t);
    Cut(q * k + s, t, m);
  }

  lemma Euclid(a: nat, n: nat)
    requires n > 0
    ensures a == a / n * n + a % n
  {
  }

  lemma ModMod(a: nat, n: nat, m: nat, k: nat)
    requires m > 0 && n > 0 && n == m * k
    ensures a % n % m == a % m
  {
    var q, r := a / n, a % n;
    var s, t := r / m, r % m;
    Euclid(a, n);
    Euclid(r, m);
    Remainder(a, q, r, n, m, k, s, t);
  }

  lemma LowBits(a: nat, b: nat, n: nat, k: nat, m: nat)
    requires m > 0 && k > 0 && n == m * k && Field(a, 1, n) == Field(b, 1, n)
    ensures Field(a, 1, m) == Field(b, 1, m)
  {
    Whole(a);
    Whole(b);
    ModMod(a, n, m, k);
    ModMod(b, n, m, k);
  }

  lemma Low4(a: nat)
    ensures Field(a, 1, 4) == a % 4
  {
    Whole(a);
  }

  lemma KeepsJ(w: u32, imm: int)
    requires -0x10_0000 <= imm < 0x10_0000 && imm % 2 == 0 && w % 4 == 3
    ensures EncodeJ(w, imm) % 4 == 3 && Opcode(EncodeJ(w, imm)) == Opcode(w)
    ensures ImmJ(EncodeJ(w, imm)) == imm && EncodeJ(EncodeJ(w, imm), 0) == EncodeJ(w, 0)
  {
    hide Field, Above;
    JRoundTrip(w, imm);
    LowBits(EncodeJ(w, imm), w, 0x1000, 0x400, 4);
    LowBits(EncodeJ(w, imm), w, 0x1000, 0x20, 0x80);
    Low4(EncodeJ(w, imm));
    Low4(w);
  }

  lemma KeepsB(w: u32, imm: int)
    requires -0x1000 <= imm < 0x1000 && imm % 2 == 0 && w % 4 == 3
    ensures EncodeB(w, imm) % 4 == 3 && Opcode(EncodeB(w, imm)) == Opcode(w)
    ensures ImmB(EncodeB(w, imm)) == imm && EncodeB(EncodeB(w, imm), 0) == EncodeB(w, 0)
  {
    hide Field, Above;
    BRoundTrip(w, imm);
    LowBits(EncodeB(w, imm), w, 0x80, 0x20, 4);
    Low4(EncodeB(w, imm));
    Low4(w);
  }

  lemma KeepsCJ(h: half, imm: int)
    requires EncodeCJ(h, imm).Some?
    ensures
      var x := EncodeCJ(h, imm).value;
      && x % 4 == h % 4 && ImmCJ(x) == imm
      && IsCJ(x) == IsCJ(h) && IsCB(x) == IsCB(h)
      && EncodeCJ(x, 0) == EncodeCJ(h, 0)
  {
    hide Field, Above;
    CJRoundTrip(h, imm);
    Low4(h);
    Low4(EncodeCJ(h, imm).value);
  }

  lemma KeepsCB(h: half, imm: int)
    requires EncodeCB(h, imm).Some?
    ensures
      var x := EncodeCB(h, imm).value;
      && x % 4 == h % 4 && ImmCB(x) == imm
      && IsCB(x) == IsCB(h) && IsCJ(x) == IsCJ(h)
      && EncodeCB(x, 0) == EncodeCB(h, 0)
  {
    hide Field, Above;
    CBRoundTrip(h, imm);
    Low4(h);
    Low4(EncodeCB(h, imm).value);
  }

  lemma KeepsShort(h: half, imm: int)
    requires h % 4 != 3
    ensures
      var x := EncodeCJ(h, imm);
      x.Some? ==>
        && x.value % 4 == h % 4 && ImmCJ(x.value) == imm
        && IsCJ(x.value) == IsCJ(h) && IsCB(x.value) == IsCB(h)
        && EncodeCJ(x.value, 0) == EncodeCJ(h, 0)
    ensures
      var x := EncodeCB(h, imm);
      x.Some? ==>
        && x.value % 4 == h % 4 && ImmCB(x.value) == imm
        && IsCB(x.value) == IsCB(h) && IsCJ(x.value) == IsCJ(h)
        && EncodeCB(x.value, 0) == EncodeCB(h, 0)
  {
    hide EncodeCJ, EncodeCB, ImmCJ, ImmCB, IsCJ, IsCB;
    if EncodeCJ(h, imm).Some? {
      KeepsCJ(h, imm);
    }
    if EncodeCB(h, imm).Some? {
      KeepsCB(h, imm);
    }
  }

  /** The instruction with displacement `imm` in place of `d`, if it reaches. */
  function Retarget(c: Chunk, d: int, imm: int): (r: Option<Chunk>)
    requires Disp(c) == Some(d) && imm % 2 == 0
  {
    match c
    case Short(h) =>
      if imm == d then Some(c)
      else
        var h' := if IsCJ(h) then EncodeCJ(h, imm) else EncodeCB(h, imm);
        (match h'
         case None => None
         case Some(x) =>
           KeepsShort(h, imm);
           Some(Short(x)))
    case Long(w) =>
      if Opcode(w) == 0x6F then
        if !(-0x10_0000 <= imm < 0x10_0000) then None
        else
          KeepsJ(w, imm);
          Some(Long(EncodeJ(w, imm)))
      else if !(-0x1000 <= imm < 0x1000) then None
      else
        KeepsB(w, imm);
        Some(Long(EncodeB(w, imm)))
  }

  /** Offsets a static branch reaches: 1 MiB either way for `jal`, 4 KiB for the
      branches, 2 KiB for `c.j`, 256 bytes for `c.beqz` and `c.bnez`. */
  predicate Reaches(c: Chunk, d: int)
    requires Disp(c).Some?
  {
    match c
    case Long(w) => if Opcode(w) == 0x6F then -1048576 <= d < 1048576 else -4096 <= d < 4096
    case Short(h) => if IsCJ(h) then -2048 <= d < 2048 else -256 <= d < 256
  }

  lemma RetargetReaches(c: Chunk, d: int, imm: int)
    requires Disp(c) == Some(d) && imm % 2 == 0
    ensures Retarget(c, d, imm).Some? <==> Reaches(c, imm)
  {
    hide Field, Above, EncodeJ, EncodeB, EncodeCJ, EncodeCB, ImmJ, ImmB, ImmCJ, ImmCB;
  }

  /** One re-encoded instruction; `None` is a link error. */
  function Recode(cs: seq<Chunk>, marks: seq<bool>, i: nat): Option<Chunk>
    requires i < |cs| == |marks|
  {
    var c := cs[i];
    match Disp(c)
    case None => Some(c)
    case Some(d) =>
      match IndexAt(cs, At(cs, i) + d)
      case None => if c.Short? then None else Some(c)
      case Some(t) => Retarget(c, d, NewDisp(cs, marks, i, t))
  }

  /** The instruction without its displacement. */
  function Shape(c: Chunk): Chunk {
    match c
    case Short(h) =>
      KeepsShort(h, 0);
      if IsCJ(h) then Short(EncodeCJ(h, 0).value)
      else if IsCB(h) then Short(EncodeCB(h, 0).value)
      else c
    case Long(w) =>
      KeepsJ(w, 0);
      KeepsB(w, 0);
      if Opcode(w) == 0x6F then Long(EncodeJ(w, 0))
      else if Opcode(w) == 0x63 then Long(EncodeB(w, 0))
      else c
  }

  /** The same instruction up to the displacement. */
  predicate Alike(c: Chunk, c': Chunk) {
    && Len(c') == Len(c) && Shape(c') == Shape(c)
    && IsTerm(c') == IsTerm(c) && Disp(c').Some? == Disp(c).Some?
  }

  lemma ShortBranch(h: half)
    ensures !(IsCJ(h) && IsCB(h))
    ensures IsCJ(h) || IsCB(h) ==> h != 0
  {
    ZeroHalf();
    hide Field, Above;
  }

  /** Retargeting changes the displacement to the one asked for, nothing else. */
  lemma RetargetExact(c: Chunk, d: int, imm: int)
    requires Disp(c) == Some(d) && imm % 2 == 0 && Retarget(c, d, imm).Some?
    ensures
      var c' := Retarget(c, d, imm).value;
      Disp(c') == Some(imm) && Alike(c, c')
  {
    hide Field, Above, ImmJ, ImmB, ImmCJ, ImmCB, EncodeJ, EncodeB, EncodeCJ, EncodeCB;
    match c {
      case Short(h) =>
        if imm != d {
          KeepsShort(h, imm);
          ShortBranch(h);
          ShortBranch(Retarget(c, d, imm).value.h);
        }
      case Long(w) =>
        if Opcode(w) == 0x6F {
          KeepsJ(w, imm);
        } else {
          KeepsB(w, imm);
        }
    }
  }

  // ---- The new program ------------------------------------------------------

  /** The first `i` re-encoded instructions with the marked fallthroughs. */
  function WeaveTo(news: seq<Chunk>, marks: seq<bool>, i: nat): seq<Chunk>
    requires i <= |news| == |marks|
  {
    if i == 0 then []
    else WeaveTo(news, marks, i - 1) + (if marks[i - 1] then [FALLTHROUGH] else []) + [news[i - 1]]
  }

  function Weave(news: seq<Chunk>, marks: seq<bool>): seq<Chunk>
    requires |news| == |marks|
  {
    WeaveTo(news, marks, |news|)
  }

  /** Position of old instruction `i` in the new program. */
  function NewIdx(marks: seq<bool>, i: nat): (k: nat)
    requires i < |marks|
    ensures i <= k && (marks[i] ==> i < k)
  {
    (if i == 0 then 0 else NewIdx(marks, i - 1) + 1) + if marks[i] then 1 else 0
  }

  datatype Linked = Linked(code: seq<Chunk>, offsets: seq<nat>) | LinkError

  predicate AllRecode(cs: seq<Chunk>, marks: seq<bool>)
    requires |cs| == |marks|
  {
    forall i :: 0 <= i < |cs| ==> Recode(cs, marks, i).Some?
  }

  function Recoded(cs: seq<Chunk>, marks: seq<bool>): (news: seq<Chunk>)
    requires |cs| == |marks| && AllRecode(cs, marks)
    ensures |news| == |cs| && forall i :: 0 <= i < |cs| ==> Some(news[i]) == Recode(cs, marks, i)
  {
    seq(|cs|, i requires 0 <= i < |cs| => Recode(cs, marks, i).value)
  }

  function OffsetMap(cs: seq<Chunk>, marks: seq<bool>): (offsets: seq<nat>)
    requires |cs| == |marks|
    ensures |offsets| == |cs| && forall i :: 0 <= i < |cs| ==> offsets[i] == NewAt(cs, marks, i)
  {
    seq(|cs|, i requires 0 <= i < |cs| => NewAt(cs, marks, i))
  }

  /** The same as a map from old offset to new offset, as the pass returns it. */
  function RemapOf(cs: seq<Chunk>, marks: seq<bool>): map<nat, nat>
    requires |cs| == |marks|
  {
    map o: nat | o < At(cs, |cs|) && IndexAt(cs, o).Some? :: NewAt(cs, marks, IndexAt(cs, o).value)
  }

  /** `align_branch_targets`: with nothing to inject the code stays as it is. */
  function Align(cs: seq<Chunk>, extra: set<nat>): Linked {
    var marks := Marks(cs, extra);
    if true !in marks then Linked(cs, OffsetMap(cs, marks))
    else if AllRecode(cs, marks) then Linked(Weave(Recoded(cs, marks), marks), OffsetMap(cs, marks))
    else LinkError
  }

  /** A static branch to an instruction start reaches it in the new layout; one to
      anywhere else is a four-byte one. */
  predicate InReach(cs: seq<Chunk>, marks: seq<bool>, i: nat)
    requires i < |cs| == |marks|
  {
    Disp(cs[i]).Some? ==>
      var t := IndexAt(cs, At(cs, i) + Disp(cs[i]).value);
      if t.Some? then Reaches(cs[i], NewAt(cs, marks, t.value) - NewAt(cs, marks, i)) else Len(cs[i]) == 4
  }

  lemma RecodeReaches(cs: seq<Chunk>, marks: seq<bool>, i: nat)
    requires i < |cs| == |marks|
    ensures Recode(cs, marks, i).Some? <==> InReach(cs, marks, i)
  {
    hide Disp, IndexAt, At, NewAt, Retarget, Reaches;
    if Disp(cs[i]).Some? {
      var d := Disp(cs[i]).value;
      var t := IndexAt(cs, At(cs, i) + d);
      if t.Some? {
        RetargetReaches(cs[i], d, NewDisp(cs, marks, i, t.value));
      }
    }
  }

  predicate AllInReach(cs: seq<Chunk>, marks: seq<bool>)
    requires |cs| == |marks|
  {
    forall i :: 0 <= i < |cs| ==> InReach(cs, marks, i)
  }

  lemma AllReach(cs: seq<Chunk>, marks: seq<bool>)
    requires |cs| == |marks|
    ensures AllRecode(cs, marks) <==> AllInReach(cs, marks)
  {
    hide InReach, Recode;
    forall i | 0 <= i < |cs| ensures Recode(cs, marks, i).Some? <==> InReach(cs, marks, i) {
      RecodeReaches(cs, marks, i);
    }
  }

  /** The pass succeeds exactly when it has nothing to inject or every static branch
      is in reach. */
  lemma AlignSucceeds(cs: seq<Chunk>, extra: set<nat>)
    ensures Align(cs, extra).Linked? <==> true !in Marks(cs, extra) || AllInReach(cs, Marks(cs, extra))
  {
    hide AllInReach, AllRecode, Marks, Weave;
    AllReach(cs, Marks(cs, extra));
  }

  /** Every instruction moves by four bytes for each fallthrough at or before it. */
  lemma {:induction false} MovesByMarks(cs: seq<Chunk>, marks: seq<bool>, i: nat)
    requires i < |cs| == |marks|
    ensures NewAt(cs, marks, i) == At(cs, i) + 4 * |set k | 0 <= k <= i && marks[k]|
  {
    var upTo := set k | 0 <= k <= i && marks[k];
    if i > 0 {
      MovesByMarks(cs, marks, i - 1);
      var before := set k | 0 <= k <= i - 1 && marks[k];
      assert upTo == before + if marks[i] then {i} else {};
    } else {
      assert upTo == if marks[0] then {0} else {};
    }
  }

  // ---- What a successful pass produced --------------------------------------

  /** `c'` is old instruction `i` re-encoded for the new layout; a branch to
      anywhere but an instruction start is left as it is. */
  predicate Relinked(cs: seq<Chunk>, marks: seq<bool>, i: nat, c': Chunk)
    requires i < |cs| == |marks|
  {
    && Alike(cs[i], c')
    && (Disp(cs[i]).Some? ==>
          var t := IndexAt(cs, At(cs, i) + Disp(cs[i]).value);
          if t.Some? then NewAt(cs, marks, i) + Disp(c').value == NewAt(cs, marks, t.value) else c' == cs[i])
  }

  predicate Woven(cs: seq<Chunk>, marks: seq<bool>, news: seq<Chunk>, code: seq<Chunk>) {
    && |cs| == |marks| == |news|
    && (forall i :: 0 <= i < |cs| ==> Relinked(cs, marks, i, news[i]))
    && (forall i :: 0 <= i < |cs| && marks[i] ==> i > 0 && !IsTerm(cs[i - 1]))
    && code == Weave(news, marks)
  }

  lemma AlikeSelf(c: Chunk)
    ensures Alike(c, c)
  {
  }

  lemma RecodeRelinked(cs: seq<Chunk>, marks: seq<bool>, i: nat)
    requires i < |cs| == |marks| && Recode(cs, marks, i).Some?
    ensures Relinked(cs, marks, i, Recode(cs, marks, i).value)
  {
    hide Alike, Retarget, Disp, IndexAt, At, NewAt;
    var d := Disp(cs[i]);
    AlikeSelf(cs[i]);
    if d.Some? {
      var t := IndexAt(cs, At(cs, i) + d.value);
      if t.Some? {
        RetargetExact(cs[i], d.value, NewDisp(cs, marks, i, t.value));
      }
    }
  }

  lemma {:induction false} NoMarks(cs: seq<Chunk>, marks: seq<bool>, i: nat)
    requires |cs| == |marks| && true !in marks && i <= |cs|
    ensures WeaveTo(cs, marks, i) == cs[..i]
    ensures i < |cs| ==> NewAt(cs, marks, i) == At(cs, i)
  {
    if i > 0 {
      NoMarks(cs, marks, i - 1);
      assert !marks[i - 1];
    }
    if i < |cs| {
      assert !marks[i];
    }
  }

  lemma SameRelinked(cs: seq<Chunk>, marks: seq<bool>, i: nat)
    requires i < |cs| == |marks| && true !in marks
    ensures Relinked(cs, marks, i, cs[i])
  {
    hide Alike, Disp, IndexAt, At, NewAt;
    AlikeSelf(cs[i]);
    NoMarks(cs, marks, i);
    if Disp(cs[i]).Some? {
      var t := IndexAt(cs, At(cs, i) + Disp(cs[i]).value);
      if t.Some? {
        NoMarks(cs, marks, t.value);
      }
    }
  }

  /** Both ways out of the pass produce a woven program and its offset map. */
  lemma AlignWoven(cs: seq<Chunk>, extra: set<nat>) returns (news: seq<Chunk>)
    requires Align(cs, extra).Linked?
    ensures Woven(cs, Marks(cs, extra), news, Align(cs, extra).code)
    ensures Align(cs, extra).offsets == OffsetMap(cs, Marks(cs, extra))
  {
    hide Relinked, IsTerm, Recode, Targeted;
    var marks := Marks(cs, extra);
    if true !in marks {
      news := cs;
      forall i | 0 <= i < |cs| ensures Relinked(cs, marks, i, cs[i]) {
        SameRelinked(cs, marks, i);
      }
      NoMarks(cs, marks, |cs|);
    } else {
      news := Recoded(cs, marks);
      forall i | 0 <= i < |cs| ensures Relinked(cs, marks, i, news[i]) {
        RecodeRelinked(cs, marks, i);
      }
    }
  }

  // ---- Layout of the new program --------------------------------------------

  lemma {:induction false} WeaveLen(news: seq<Chunk>, marks: seq<bool>, i: nat)
    requires i < |news| == |marks|
    ensures |WeaveTo(news, marks, i + 1)| == NewIdx(marks, i) + 1
  {
    if i > 0 {
      WeaveLen(news, marks, i - 1);
    }
  }

  lemma {:induction false} WeavePrefix(news: seq<Chunk>, marks: seq<bool>, i: nat, j: nat)
    requires i <= j <= |news| == |marks|
    ensures WeaveTo(news, marks, i) <= WeaveTo(news, marks, j)
    decreases j
  {
    if i < j {
      WeavePrefix(news, marks, i, j - 1);
    }
  }

  /** Each old instruction, and each fallthrough in front of it, is in place. */
  lemma WeaveAt(news: seq<Chunk>, marks: seq<bool>, i: nat)
    requires i < |news| == |marks|
    ensures NewIdx(marks, i) < |Weave(news, marks)| && Weave(news, marks)[NewIdx(marks, i)] == news[i]
    ensures marks[i] ==> Weave(news, marks)[NewIdx(marks, i) - 1] == FALLTHROUGH
  {
    WeaveLen(news, marks, i);
    WeavePrefix(news, marks, i + 1, |news|);
    var w := WeaveTo(news, marks, i + 1);
    assert w[NewIdx(marks, i)] == news[i];
    assert marks[i] ==> w[NewIdx(marks, i) - 1] == FALLTHROUGH;
  }

  /** The offset map gives the true byte offsets in the new program. */
  lemma {:induction false} NewOffsets(cs: seq<Chunk>, marks: seq<bool>, news: seq<Chunk>, i: nat)
    requires i < |cs| == |marks| == |news|
    requires forall k :: 0 <= k < |cs| ==> Len(news[k]) == Len(cs[k])
    ensures NewIdx(marks, i) < |Weave(news, marks)| && At(Weave(news, marks), NewIdx(marks, i)) == NewAt(cs, marks, i)
  {
    var w := Weave(news, marks);
    var k := NewIdx(marks, i);
    WeaveAt(news, marks, i);
    if i > 0 {
      NewOffsets(cs, marks, news, i - 1);
      WeaveAt(news, marks, i - 1);
    }
  }

  lemma {:induction false} NewAtMono(cs: seq<Chunk>, marks: seq<bool>, i: nat, j: nat)
    requires i < j < |cs| == |marks|
    ensures NewAt(cs, marks, i) + Len(cs[i]) <= NewAt(cs, marks, j)
    decreases j
  {
    if i + 1 < j {
      NewAtMono(cs, marks, i, j - 1);
    }
  }

  // ---- Block starts ---------------------------------------------------------

  /** A later rewrite that keeps lengths and terminators. */
  predicate KeepsBlocks(a: seq<Chunk>, b: seq<Chunk>) {
    |a| == |b| && forall k :: 0 <= k < |a| ==> Len(b[k]) == Len(a[k]) && (IsTerm(a[k]) ==> IsTerm(b[k]))
  }

  lemma {:induction false} KeepsOffsets(a: seq<Chunk>, b: seq<Chunk>, k: nat)
    requires KeepsBlocks(a, b) && k <= |a|
    ensures At(a, k) == At(b, k)
  {
    hide IsTerm;
    if k > 0 {
      KeepsOffsets(a, b, k - 1);
    }
  }

  lemma FallthroughTerm()
    ensures IsTerm(FALLTHROUGH)
  {
    Whole(0x400B);
  }

  /** In front of a target stands a terminator of the new program. */
  lemma TermBefore(cs: seq<Chunk>, marks: seq<bool>, news: seq<Chunk>, code: seq<Chunk>, t: nat)
    requires Woven(cs, marks, news, code) && t < |cs| && (marks[t] || PostTerm(cs, t))
    ensures NewIdx(marks, t) < |code|
    ensures NewIdx(marks, t) == 0 || IsTerm(code[NewIdx(marks, t) - 1])
  {
    hide Shape, Disp, IsTerm, IndexAt;
    WeaveAt(news, marks, t);
    if marks[t] {
      FallthroughTerm();
    } else if t > 0 {
      WeaveAt(news, marks, t - 1);
      assert Relinked(cs, marks, t - 1, news[t - 1]);
    }
  }

  /** Predecode starts a block behind every instruction the linker ends one at. */
  lemma StartsBlock(cs: seq<Chunk>, k: nat, plain: PlainDecoder)
    requires k < |cs| && (k == 0 || IsTerm(cs[k - 1]))
    ensures
      var insts := Pre.Mark(Pre.Sweep(Flatten(cs), 0, plain));
      k < |insts| && insts[k].pc == At(cs, k) && insts[k].start
  {
    hide IsTerm, InstOf, Flatten, Pre.Sweep;
    SweepSees(cs, 0, plain);
    var raw := EntriesFrom(cs, 0, plain);
    assert raw[k].pc == At(cs, k);
    if k > 0 {
      assert raw[k - 1].inst == InstOf(cs[k - 1], plain);
      LinkerTerminators(cs[k - 1], plain);
    }
  }

  lemma WovenOffset(cs: seq<Chunk>, marks: seq<bool>, news: seq<Chunk>, code: seq<Chunk>, i: nat)
    requires Woven(cs, marks, news, code) && i < |cs|
    ensures NewIdx(marks, i) < |code| && code[NewIdx(marks, i)] == news[i]
    ensures At(code, NewIdx(marks, i)) == NewAt(cs, marks, i)
    ensures marks[i] ==> code[NewIdx(marks, i) - 1] == FALLTHROUGH
  {
    hide Shape, IsTerm, Disp, IndexAt;
    forall k | 0 <= k < |cs| ensures Len(news[k]) == Len(cs[k]) {
      assert Relinked(cs, marks, k, news[k]);
    }
    hide Relinked;
    NewOffsets(cs, marks, news, i);
    WeaveAt(news, marks, i);
  }

  /** Every static target and every extra target that was an instruction start is
      a block start in predecode's own marking, also after a rewrite that keeps
      lengths and terminators. */
  lemma TargetsStartBlocks(cs: seq<Chunk>, extra: set<nat>, t: nat, rewritten: seq<Chunk>, plain: PlainDecoder)
    requires Align(cs, extra).Linked? && t < |cs| && Targeted(cs, extra, t)
    requires KeepsBlocks(Align(cs, extra).code, rewritten)
    ensures
      var insts := Pre.Mark(Pre.Sweep(Flatten(rewritten), 0, plain));
      var k := NewIdx(Marks(cs, extra), t);
      k < |insts| && insts[k].pc == Align(cs, extra).offsets[t] && insts[k].start
  {
    hide Align, Woven, IsTerm, PostTerm, Targeted, Flatten, Pre.Sweep, Pre.Mark;
    var news := AlignWoven(cs, extra);
    var marks, code := Marks(cs, extra), Align(cs, extra).code;
    var k := NewIdx(marks, t);
    TermBefore(cs, marks, news, code, t);
    WovenOffset(cs, marks, news, code, t);
    KeepsOffsets(code, rewritten, k);
    StartsBlock(rewritten, k, plain);
  }
}