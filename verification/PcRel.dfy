/** PC-relative and absolute address pairs (nub-linker `fixup_code_pcrel`,
    `fold_auipc_to_lui`, `patch_lo12_abs`): the high part carries the sign of the
    low part, and executing the pair gives the address back. */
module PcRel {
  import opened Prelude
  import opened Encoding
  import opened Isa
  import opened Chunks
  import opened Inject
  import opened Interp

  const OP_AUIPC: nat := 0x17
  const OP_LUI: nat := 0x37

  // ---- Splitting an address -------------------------------------------------

  /** `(v + 0x800) & 0xFFFFF000` in 32 bits. */
  function Hi(v: int): u32 {
    Above(U32(v + 0x800), 0x1000) * 0x1000
  }

  /** The low twelve bits, sign-extended. */
  function Lo(v: int): (lo: int)
    ensures -0x800 <= lo < 0x800
  {
    Signed(Field(U32(v), 1, 0x1000), 0x800)
  }

  /** A `lui`/`auipc` with new upper bits and the register of `word`. */
  function UpperWord(word: u32, v: int, op: nat): u32
    requires op < 0x80
  {
    Hi(v) + Field(word, 0x80, 0x20) * 0x80 + op
  }

  function PatchI(w: u32, imm: int): u32 {
    Field(U32(imm), 1, 0x1000) * 0x10_0000 + Field(w, 1, 0x10_0000)
  }

  function PatchS(w: u32, imm: int): u32 {
    var v := U32(imm);
    Field(v, 0x20, 0x80) * 0x200_0000 + Field(w, 0x1000, 0x2000) * 0x1000 + Field(v, 1, 0x20) * 0x80 + Field(w, 1, 0x80)
  }

  /** Store offset, as `imm_s` reads it. */
  function ImmS(w: u32): int {
    Signed(Above(w, 0x200_0000) * 0x20 + Field(w, 0x80, 0x20), 0x800)
  }

  /** Adding 0x800 moves the low twelve bits from signed to unsigned. */
  lemma Carry(u: nat, a: nat, s: nat, x: nat, b: nat, r: nat)
    requires u == a * 0x1000 + s && s < 0x1000 && x == b * 0x1000 + r && r < 0x1000
    requires x == u + 0x800 || x == u + 0x800 - 0x1_0000_0000
    ensures Signed(s, 0x800) == r - 0x800
  {
  }

  /** The +0x800 carry makes up for the sign of the low part. */
  lemma HiLo(v: int)
    ensures U32(Hi(v) + Lo(v)) == U32(v)
  {
    hide Field, Above;
    var x: int, u: int := U32(v + 0x800), U32(v);
    Whole(x);
    Whole(u);
    Digit(x, 1, 0x1000, 0x1000);
    Digit(u, 1, 0x1000, 0x1000);
    var r, s := Field(x, 1, 0x1000), Field(u, 1, 0x1000);
    Carry(u, Above(u, 0x1000), s, x, Above(x, 0x1000), r);
    U32Add(v, 0x800);
    assert Hi(v) + Lo(v) == x - 0x800;
    U32Add(v + 0x800, -0x800);
  }

  // ---- Encoding the parts ---------------------------------------------------

  lemma UpperWordFields(word: u32, v: int, op: nat)
    requires op < 0x80
    ensures
      var w := UpperWord(word, v, op);
      Opcode(w) == op && Field(w, 0x80, 0x20) == Field(word, 0x80, 0x20) && Above(w, 0x1000) * 0x1000 == Hi(v)
  {
    hide Field, Above;
    var w, rd, hi := UpperWord(word, v, op), Field(word, 0x80, 0x20), Above(U32(v + 0x800), 0x1000);
    Whole(w);
    Peel(w, 1, hi * 0x20 + rd, op, 0x80, 0x80);
    Peel(w, 0x80, hi, rd, 0x20, 0x1000);
  }

  lemma PatchIFields(w: u32, imm: int)
    requires -0x800 <= imm < 0x800
    ensures ImmI(PatchI(w, imm)) == imm && Field(PatchI(w, imm), 1, 0x10_0000) == Field(w, 1, 0x10_0000)
  {
    hide Field, Above;
    var v, x := U32(imm), PatchI(w, imm);
    Whole(x);
    Peel(x, 1, Field(v, 1, 0x1000), Field(w, 1, 0x10_0000), 0x10_0000, 0x10_0000);
    Whole(v);
    Digit(v, 1, 0x1000, 0x1000);
    SignBack(imm, Above(v, 0x1000), Field(v, 1, 0x1000), 0x800, 0x10_0000);
  }

  lemma PatchSFields(w: u32, imm: int)
    requires -0x800 <= imm < 0x800
    ensures ImmS(PatchS(w, imm)) == imm && Opcode(PatchS(w, imm)) == Opcode(w)
    ensures Field(PatchS(w, imm), 0x1000, 0x2000) == Field(w, 0x1000, 0x2000)
  {
    hide Field, Above;
    var v, x := U32(imm), PatchS(w, imm);
    var hi, mid, lo, op := Field(v, 0x20, 0x80), Field(w, 0x1000, 0x2000), Field(v, 1, 0x20), Field(w, 1, 0x80);
    Whole(x);
    Peel(x, 1, (hi * 0x2000 + mid) * 0x20 + lo, op, 0x80, 0x80);
    Peel(x, 0x80, hi * 0x2000 + mid, lo, 0x20, 0x1000);
    Peel(x, 0x1000, hi, mid, 0x2000, 0x200_0000);
    Whole(v);
    Digit(v, 1, 0x20, 0x20);
    Digit(v, 0x20, 0x80, 0x1000);
    SignBack(imm, Above(v, 0x1000), hi * 0x20 + lo, 0x800, 0x10_0000);
  }

  // ---- Executing a pair -----------------------------------------------------

  lemma SignExtendLow(x: u32, b: int)
    ensures U32(SignExtend32(x) + b) == U32(x + b)
  {
    U32Shift(x + b, 0xFFFF_FFFF);
  }

  lemma SignedLow(x: u32, b: int)
    ensures U32(b + Signed(x, 0x8000_0000)) == U32(b + x)
  {
    U32Shift(b + x, -1);
  }

  /** `auipc` at code offset `na` followed by a 12-bit add reaches code offset
      `nt`, in 32-bit arithmetic. */
  lemma AuipcPair(codeBase: u32, na: nat, nt: nat, word: u32)
    ensures
      var w := UpperWord(word, nt - na, OP_AUIPC);
      U32(SignExtend32(U32(codeBase + na + UpperImm(w))) + Lo(nt - na)) == U32(codeBase + nt)
  {
    hide Above, Field, U32, SignExtend32, Signed;
    var disp := nt - na;
    var w := UpperWord(word, disp, OP_AUIPC);
    UpperWordFields(word, disp, OP_AUIPC);
    SignedLow(Hi(disp), codeBase + na);
    SignExtendLow(U32(codeBase + na + Hi(disp)), Lo(disp));
    U32Add(codeBase + na + Hi(disp), Lo(disp));
    HiLo(disp);
    U32Add(Hi(disp) + Lo(disp), codeBase + na);
    U32Add(disp, codeBase + na);
    assert codeBase + na + Hi(disp) + Lo(disp) == Hi(disp) + Lo(disp) + (codeBase + na);
    assert disp + (codeBase + na) == codeBase + nt;
  }

  /** `lui` followed by a 12-bit offset addresses `eff`. */
  lemma LuiPair(eff: u32, word: u32)
    ensures
      var w := UpperWord(word, eff, OP_LUI);
      U32(SignExtend32(U32(UpperImm(w))) + Lo(eff)) == eff
  {
    hide Above, Field, SignExtend32, Signed, U32;
    var w := UpperWord(word, eff, OP_LUI);
    UpperWordFields(word, eff, OP_LUI);
    SignedLow(Hi(eff), 0);
    U32Small(Hi(eff));
    U32Small(eff);
    SignExtendLow(Hi(eff), Lo(eff));
    HiLo(eff);
  }

  // ---- Fixing a linked program ----------------------------------------------

  /** A kept `auipc` and the code offset it refers to, by old offsets. */
  datatype HighRef = HighRef(auipc: nat, target: nat)

  /** A low-part instruction, the `auipc` it completes, and the target. */
  datatype LowRef = LowRef(lo: nat, auipc: nat, target: nat)

  /** The offset map sends instruction starts to instruction starts, one to one. */
  predicate GoodMap(code: seq<Chunk>, remap: map<nat, nat>) {
    && (forall o <- remap :: IndexAt(code, remap[o]).Some?)
    && (forall o <- remap, p <- remap :: remap[o] == remap[p] ==> o == p)
  }

  /** New position and displacement of a reference; `None` is a link error. */
  datatype Spot = Spot(k: nat, disp: int)

  function SpotOf(code: seq<Chunk>, remap: map<nat, nat>, at: nat, auipc: nat, target: nat): (r: Option<Spot>)
    requires GoodMap(code, remap)
    ensures r.Some? ==> r.value.k < |code|
    ensures r.Some? <==> at in remap && auipc in remap && target in remap
  {
    if at in remap && auipc in remap && target in remap then
      var nt: int, na: int := remap[target], remap[auipc];
      Some(Spot(IndexAt(code, remap[at]).value, nt - na))
    else None
  }

  lemma UpperProper(w: u32, v: int, op: nat)
    requires op < 0x80 && op % 4 == 3
    ensures UpperWord(w, v, op) % 4 == 3
  {
    hide Field, Above;
    assert UpperWord(w, v, op) == 4 * (Above(U32(v + 0x800), 0x1000) * 0x400 + Field(w, 0x80, 0x20) * 0x20) + op;
  }

  /** New upper bits for an `auipc`; anything else there is an error, except a
      two-byte instruction ending the code, which is skipped. */
  function FixHigh(c: Chunk, last: bool, disp: int): Option<Chunk> {
    match c
    case Short(_) => if last then Some(c) else None
    case Long(w) =>
      if Opcode(w) != OP_AUIPC then None
      else
        UpperProper(w, disp, OP_AUIPC);
        Some(Long(UpperWord(w, disp, OP_AUIPC)))
  }

  lemma LowProper(w: nat, n: nat, k: nat)
    requires k > 0 && n == 4 * k
    ensures Field(w, 1, n) % 4 == w % 4
  {
    Whole(w);
    ModMod(w, n, 4, k);
  }

  /** Whatever stands above the low two bits. */
  lemma LowTwo(q: nat, r: nat)
    ensures (4 * q + r) % 4 == r % 4
  {
  }

  lemma PatchIProper(w: u32, imm: int)
    requires w % 4 == 3
    ensures PatchI(w, imm) % 4 == 3
  {
    hide Field, Above;
    var low := Field(w, 1, 0x10_0000);
    LowProper(w, 0x10_0000, 0x4_0000);
    LowTwo(Field(U32(imm), 1, 0x1000) * 0x4_0000, low);
  }

  lemma PatchSProper(w: u32, imm: int)
    requires w % 4 == 3
    ensures PatchS(w, imm) % 4 == 3
  {
    hide Field, Above;
    var v, low := U32(imm), Field(w, 1, 0x80);
    LowProper(w, 0x80, 0x20);
    LowTwo(Field(v, 0x20, 0x80) * 0x80_0000 + Field(w, 0x1000, 0x2000) * 0x400 + Field(v, 1, 0x20) * 0x20, low);
  }

  /** New low bits for a load, `addi`, `jalr` or store; others stay. */
  function FixLow(c: Chunk, disp: int): Chunk {
    match c
    case Short(_) => c
    case Long(w) =>
      PatchIProper(w, Lo(disp));
      PatchSProper(w, Lo(disp));
      if Opcode(w) in {0x03, 0x13, 0x67} then Long(PatchI(w, Lo(disp)))
      else if Opcode(w) == 0x23 then Long(PatchS(w, Lo(disp)))
      else c
  }

  function FixHighs(code: seq<Chunk>, remap: map<nat, nat>, refs: seq<HighRef>, i: nat): (r: Option<seq<Chunk>>)
    requires GoodMap(code, remap) && i <= |refs|
    ensures r.Some? ==> |r.value| == |code|
  {
    if i == 0 then Some(code)
    else
      match (FixHighs(code, remap, refs, i - 1), SpotOf(code, remap, refs[i - 1].auipc, refs[i - 1].auipc, refs[i - 1].target))
      case (Some(c), Some(s)) =>
        (match FixHigh(c[s.k], s.k + 1 == |code|, s.disp)
         case Some(x) => Some(c[s.k := x])
         case None => None)
      case _ => None
  }

  function FixLows(code: seq<Chunk>, c: seq<Chunk>, remap: map<nat, nat>, refs: seq<LowRef>, i: nat): (r: Option<seq<Chunk>>)
    requires GoodMap(code, remap) && |c| == |code| && i <= |refs|
    ensures r.Some? ==> |r.value| == |code|
  {
    if i == 0 then Some(c)
    else
      match (FixLows(code, c, remap, refs, i - 1), SpotOf(code, remap, refs[i - 1].lo, refs[i - 1].auipc, refs[i - 1].target))
      case (Some(d), Some(s)) => Some(d[s.k := FixLow(d[s.k], s.disp)])
      case _ => None
  }

  /** `fixup_code_pcrel`. */
  function Fixup(code: seq<Chunk>, remap: map<nat, nat>, highs: seq<HighRef>, lows: seq<LowRef>): (r: Option<seq<Chunk>>)
    requires GoodMap(code, remap)
    ensures r.Some? ==> |r.value| == |code|
  {
    match FixHighs(code, remap, highs, |highs|)
    case None => None
    case Some(c) => FixLows(code, c, remap, lows, |lows|)
  }

  lemma {:induction false} HighsFail(code: seq<Chunk>, remap: map<nat, nat>, refs: seq<HighRef>, i: nat, j: nat)
    requires GoodMap(code, remap) && i <= j <= |refs| && FixHighs(code, remap, refs, i).None?
    ensures FixHighs(code, remap, refs, j).None?
    decreases j
  {
    hide GoodMap, FixHigh, SpotOf;
    if i < j {
      HighsFail(code, remap, refs, i, j - 1);
    }
  }

  lemma {:induction false} LowsFail(code: seq<Chunk>, c: seq<Chunk>, remap: map<nat, nat>, refs: seq<LowRef>, i: nat, j: nat)
    requires GoodMap(code, remap) && |c| == |code| && i <= j <= |refs| && FixLows(code, c, remap, refs, i).None?
    ensures FixLows(code, c, remap, refs, j).None?
    decreases j
  {
    hide GoodMap, FixLow, SpotOf;
    if i < j {
      LowsFail(code, c, remap, refs, i, j - 1);
    }
  }

  /** Both loops in place. */
  method FixupCodePcrel(code: seq<Chunk>, remap: map<nat, nat>, highs: seq<HighRef>, lows: seq<LowRef>)
    returns (r: Option<seq<Chunk>>)
    requires GoodMap(code, remap)
    ensures r == Fixup(code, remap, highs, lows)
  {
    hide GoodMap, FixHigh, FixLow, SpotOf;
    var out := code;
    for i := 0 to |highs|
      invariant |out| == |code| && FixHighs(code, remap, highs, i) == Some(out)
      invariant FixHighs(code, remap, highs, |highs|).Some? ==> FixHighs(code, remap, highs, i).Some?
    {
      var s := SpotOf(code, remap, highs[i].auipc, highs[i].auipc, highs[i].target);
      var x := if s.Some? then FixHigh(out[s.value.k], s.value.k + 1 == |code|, s.value.disp) else None;
      if x.None? {
        HighsFail(code, remap, highs, i + 1, |highs|);
        return None;
      }
      out := out[s.value.k := x.value];
    }
    ghost var c := out;
    for i := 0 to |lows|
      invariant |out| == |code| && FixLows(code, c, remap, lows, i) == Some(out)
    {
      var s := SpotOf(code, remap, lows[i].lo, lows[i].auipc, lows[i].target);
      if s.None? {
        LowsFail(code, c, remap, lows, i + 1, |lows|);
        return None;
      }
      out := out[s.value.k := FixLow(out[s.value.k], s.value.disp)];
    }
    r := Some(out);
  }

  // ---- What the fixup leaves behind -----------------------------------------

  predicate Distinct(highs: seq<HighRef>, lows: seq<LowRef>) {
    && (forall i, j :: 0 <= i < j < |highs| ==> highs[i].auipc != highs[j].auipc)
    && (forall i, j :: 0 <= i < j < |lows| ==> lows[i].lo != lows[j].lo)
  }

  function HighSpot(code: seq<Chunk>, remap: map<nat, nat>, ref: HighRef): Option<Spot>
    requires GoodMap(code, remap)
  {
    SpotOf(code, remap, ref.auipc, ref.auipc, ref.target)
  }

  function LowSpot(code: seq<Chunk>, remap: map<nat, nat>, ref: LowRef): Option<Spot>
    requires GoodMap(code, remap)
  {
    SpotOf(code, remap, ref.lo, ref.auipc, ref.target)
  }

  /** Different offsets are different positions. */
  lemma SpotsApart(code: seq<Chunk>, remap: map<nat, nat>, a: nat, b: nat)
    requires GoodMap(code, remap) && a in remap && b in remap && a != b
    ensures IndexAt(code, remap[a]).value != IndexAt(code, remap[b]).value
  {
    hide IndexAt, At;
  }

  lemma {:induction false} HighsElsewhere(code: seq<Chunk>, remap: map<nat, nat>, refs: seq<HighRef>, n: nat, k: nat)
    requires GoodMap(code, remap) && n <= |refs| && k < |code| && FixHighs(code, remap, refs, n).Some?
    requires forall j :: 0 <= j < n ==> HighSpot(code, remap, refs[j]).Some? ==> HighSpot(code, remap, refs[j]).value.k != k
    ensures FixHighs(code, remap, refs, n).value[k] == code[k]
  {
    hide GoodMap, FixHigh, SpotOf;
    if n > 0 {
      assert HighSpot(code, remap, refs[n - 1]).Some?;
      HighsElsewhere(code, remap, refs, n - 1, k);
    }
  }

  /** After `n` references, reference `i` has been fixed on the original word. */
  lemma {:induction false} HighsHere(code: seq<Chunk>, remap: map<nat, nat>, refs: seq<HighRef>, n: nat, i: nat)
    requires GoodMap(code, remap) && i < n <= |refs| && FixHighs(code, remap, refs, n).Some? && Distinct(refs, [])
    ensures
      var s := HighSpot(code, remap, refs[i]);
      && s.Some? && s.value.k < |code|
      && Some(FixHighs(code, remap, refs, n).value[s.value.k])
         == FixHigh(code[s.value.k], s.value.k + 1 == |code|, s.value.disp)
  {
    hide FixHigh, IndexAt;
    if i < n - 1 {
      HighsHere(code, remap, refs, n - 1, i);
      SpotsApart(code, remap, refs[i].auipc, refs[n - 1].auipc);
    } else {
      var k := HighSpot(code, remap, refs[i]).value.k;
      forall j | 0 <= j < i && HighSpot(code, remap, refs[j]).Some? ensures HighSpot(code, remap, refs[j]).value.k != k {
        SpotsApart(code, remap, refs[j].auipc, refs[i].auipc);
      }
      HighsElsewhere(code, remap, refs, i, k);
    }
  }

  lemma {:induction false} LowsElsewhere(code: seq<Chunk>, c: seq<Chunk>, remap: map<nat, nat>, refs: seq<LowRef>, n: nat, k: nat)
    requires GoodMap(code, remap) && |c| == |code| && n <= |refs| && k < |code| && FixLows(code, c, remap, refs, n).Some?
    requires forall j :: 0 <= j < n ==> LowSpot(code, remap, refs[j]).Some? ==> LowSpot(code, remap, refs[j]).value.k != k
    ensures FixLows(code, c, remap, refs, n).value[k] == c[k]
  {
    hide GoodMap, FixLow, SpotOf;
    if n > 0 {
      assert LowSpot(code, remap, refs[n - 1]).Some?;
      LowsElsewhere(code, c, remap, refs, n - 1, k);
    }
  }

  lemma {:induction false} LowsHere(code: seq<Chunk>, c: seq<Chunk>, remap: map<nat, nat>, refs: seq<LowRef>, n: nat, i: nat)
    requires GoodMap(code, remap) && |c| == |code| && i < n <= |refs| && FixLows(code, c, remap, refs, n).Some?
    requires Distinct([], refs)
    ensures
      var s := LowSpot(code, remap, refs[i]);
      && s.Some? && s.value.k < |code|
      && FixLows(code, c, remap, refs, n).value[s.value.k] == FixLow(c[s.value.k], s.value.disp)
  {
    hide FixLow, IndexAt;
    if i < n - 1 {
      LowsHere(code, c, remap, refs, n - 1, i);
      SpotsApart(code, remap, refs[i].lo, refs[n - 1].lo);
    } else {
      var k := LowSpot(code, remap, refs[i]).value.k;
      forall j | 0 <= j < i && LowSpot(code, remap, refs[j]).Some? ensures LowSpot(code, remap, refs[j]).value.k != k {
        SpotsApart(code, remap, refs[j].lo, refs[i].lo);
      }
      LowsElsewhere(code, c, remap, refs, i, k);
    }
  }

  /** The low fixes leave every `auipc` alone. */
  lemma {:induction false} LowsSkip(code: seq<Chunk>, c: seq<Chunk>, remap: map<nat, nat>, refs: seq<LowRef>, n: nat, k: nat)
    requires GoodMap(code, remap) && |c| == |code| && n <= |refs| && k < |code| && FixLows(code, c, remap, refs, n).Some?
    requires c[k].Long? && Opcode(c[k].w) == OP_AUIPC
    ensures FixLows(code, c, remap, refs, n).value[k] == c[k]
  {
    hide GoodMap, SpotOf;
    if n > 0 {
      LowsSkip(code, c, remap, refs, n - 1, k);
    }
  }

  // ---- Blocks stay blocks ---------------------------------------------------

  /** At most the immediate of an `auipc`, load, `addi`, `jalr` or store has
      changed. */
  predicate Patched(c: Chunk, x: Chunk) {
    || x == c
    || (c.Long? && x.Long? && Opcode(x.w) == Opcode(c.w) && Opcode(c.w) in {OP_AUIPC, 0x03, 0x13, 0x67, 0x23})
  }

  predicate AllPatched(a: seq<Chunk>, b: seq<Chunk>) {
    |a| == |b| && forall k :: 0 <= k < |a| ==> Patched(a[k], b[k])
  }

  /** So lengths, terminators and static branches stay as they are. */
  lemma PatchedKeeps(c: Chunk, x: Chunk)
    requires Patched(c, x)
    ensures Len(x) == Len(c) && IsTerm(x) == IsTerm(c) && Disp(x) == Disp(c)
  {
    hide Opcode, ImmJ, ImmB;
  }

  lemma HighPatched(c: Chunk, last: bool, disp: int)
    requires FixHigh(c, last, disp).Some?
    ensures Patched(c, FixHigh(c, last, disp).value)
    ensures c.Long? ==> Opcode(c.w) == OP_AUIPC && Opcode(FixHigh(c, last, disp).value.w) == OP_AUIPC
  {
    hide UpperWord, Field;
    if c.Long? {
      UpperWordFields(c.w, disp, OP_AUIPC);
    }
  }

  lemma LowPatched(c: Chunk, disp: int)
    ensures Patched(c, FixLow(c, disp))
  {
    hide PatchI, PatchS, Field, Lo;
    if c.Long? {
      PatchIFields(c.w, Lo(disp));
      LowBits(PatchI(c.w, Lo(disp)), c.w, 0x10_0000, 0x2000, 0x80);
      PatchSFields(c.w, Lo(disp));
    }
  }

  lemma {:induction false} HighsPatched(code: seq<Chunk>, remap: map<nat, nat>, refs: seq<HighRef>, n: nat)
    requires GoodMap(code, remap) && n <= |refs| && FixHighs(code, remap, refs, n).Some?
    ensures AllPatched(code, FixHighs(code, remap, refs, n).value)
  {
    hide GoodMap, FixHigh, SpotOf, Opcode;
    if n > 0 {
      HighsPatched(code, remap, refs, n - 1);
      var c := FixHighs(code, remap, refs, n - 1).value;
      var s := HighSpot(code, remap, refs[n - 1]).value;
      HighPatched(c[s.k], s.k + 1 == |code|, s.disp);
    }
  }

  lemma {:induction false} LowsPatched(code: seq<Chunk>, c: seq<Chunk>, remap: map<nat, nat>, refs: seq<LowRef>, n: nat)
    requires GoodMap(code, remap) && |c| == |code| && n <= |refs| && FixLows(code, c, remap, refs, n).Some?
    ensures AllPatched(c, FixLows(code, c, remap, refs, n).value)
  {
    hide GoodMap, FixLow, SpotOf, Opcode;
    if n > 0 {
      LowsPatched(code, c, remap, refs, n - 1);
      var d := FixLows(code, c, remap, refs, n - 1).value;
      var s := LowSpot(code, remap, refs[n - 1]).value;
      LowPatched(d[s.k], s.disp);
    }
  }

  /** A high reference resolves and names an `auipc`, or a two-byte instruction that
      ends the code. */
  predicate HighOk(code: seq<Chunk>, remap: map<nat, nat>, ref: HighRef)
    requires GoodMap(code, remap)
  {
    && ref.auipc in remap && ref.target in remap
    && var k := IndexAt(code, remap[ref.auipc]).value;
       if Len(code[k]) == 4 then Opcode(code[k].w) == 0x17 else k == |code| - 1
  }

  lemma PatchedHigh(c: Chunk, x: Chunk, last: bool, disp: int)
    requires Patched(c, x)
    ensures FixHigh(x, last, disp).Some? <==> if Len(c) == 4 then Opcode(c.w) == 0x17 else last
  {
    hide Opcode, UpperWord;
  }

  lemma {:induction false} HighsSucceed(code: seq<Chunk>, remap: map<nat, nat>, refs: seq<HighRef>, n: nat)
    requires GoodMap(code, remap) && n <= |refs|
    ensures FixHighs(code, remap, refs, n).Some? <==> forall j :: 0 <= j < n ==> HighOk(code, remap, refs[j])
  {
    hide GoodMap, FixHigh, IndexAt, Opcode;
    if n > 0 {
      HighsSucceed(code, remap, refs, n - 1);
      var s := HighSpot(code, remap, refs[n - 1]);
      if FixHighs(code, remap, refs, n - 1).Some? && s.Some? {
        HighsPatched(code, remap, refs, n - 1);
        var k := s.value.k;
        PatchedHigh(code[k], FixHighs(code, remap, refs, n - 1).value[k], k + 1 == |code|, s.value.disp);
      }
    }
  }

  lemma {:induction false} LowsSucceed(code: seq<Chunk>, c: seq<Chunk>, remap: map<nat, nat>, refs: seq<LowRef>, n: nat)
    requires GoodMap(code, remap) && |c| == |code| && n <= |refs|
    ensures FixLows(code, c, remap, refs, n).Some? <==>
      forall j :: 0 <= j < n ==> refs[j].lo in remap && refs[j].auipc in remap && refs[j].target in remap
  {
    hide GoodMap, FixLow, IndexAt;
    if n > 0 {
      LowsSucceed(code, c, remap, refs, n - 1);
    }
  }

  /** The fixup fails exactly on a reference the offset map does not know, or a high
      one that names neither an `auipc` nor a two-byte instruction ending the
      code. */
  lemma FixupSucceeds(code: seq<Chunk>, remap: map<nat, nat>, highs: seq<HighRef>, lows: seq<LowRef>)
    requires GoodMap(code, remap)
    ensures Fixup(code, remap, highs, lows).Some? <==>
      && (forall j :: 0 <= j < |highs| ==> HighOk(code, remap, highs[j]))
      && (forall j :: 0 <= j < |lows| ==> lows[j].lo in remap && lows[j].auipc in remap && lows[j].target in remap)
  {
    hide GoodMap, FixHighs, FixLows, HighOk;
    HighsSucceed(code, remap, highs, |highs|);
    if FixHighs(code, remap, highs, |highs|).Some? {
      LowsSucceed(code, FixHighs(code, remap, highs, |highs|).value, remap, lows, |lows|);
    }
  }

  /** The fixup changes immediates only. */
  lemma FixupPatched(code: seq<Chunk>, remap: map<nat, nat>, highs: seq<HighRef>, lows: seq<LowRef>)
    requires GoodMap(code, remap) && Fixup(code, remap, highs, lows).Some?
    ensures AllPatched(code, Fixup(code, remap, highs, lows).value)
  {
    hide GoodMap, FixHighs, FixLows, Opcode;
    HighsPatched(code, remap, highs, |highs|);
    LowsPatched(code, FixHighs(code, remap, highs, |highs|).value, remap, lows, |lows|);
  }

  /** The fixup moves no instruction and unmakes no terminator, so every target
      the injection aligned is still a block start. */
  lemma FixupKeepsBlocks(code: seq<Chunk>, remap: map<nat, nat>, highs: seq<HighRef>, lows: seq<LowRef>)
    requires GoodMap(code, remap) && Fixup(code, remap, highs, lows).Some?
    ensures KeepsBlocks(code, Fixup(code, remap, highs, lows).value)
  {
    hide GoodMap, Fixup, IsTerm, Patched, Disp;
    FixupPatched(code, remap, highs, lows);
    var out := Fixup(code, remap, highs, lows).value;
    forall k | 0 <= k < |code| ensures Len(out[k]) == Len(code[k]) && IsTerm(out[k]) == IsTerm(code[k]) {
      PatchedKeeps(code[k], out[k]);
    }
  }

  // ---- A kept pair ----------------------------------------------------------

  /** The pair `auipc` at old offset `a`, `jalr` or `addi` at old offset `l`, to
      `t`. */
  predicate KeptPair(code: seq<Chunk>, remap: map<nat, nat>, highs: seq<HighRef>, lows: seq<LowRef>, a: nat, l: nat, t: nat)
    requires GoodMap(code, remap)
  {
    && HighRef(a, t) in highs && LowRef(l, a, t) in lows
    && a in remap && l in remap && t in remap
    && code[IndexAt(code, remap[a]).value].Long?
    && code[IndexAt(code, remap[l]).value].Long? && Opcode(code[IndexAt(code, remap[l]).value].w) in {0x67, 0x13}
  }

  /** An instruction that is no `auipc` is not touched by the high fixes. */
  lemma HighsMiss(code: seq<Chunk>, remap: map<nat, nat>, highs: seq<HighRef>, k: nat)
    requires GoodMap(code, remap) && Distinct(highs, []) && FixHighs(code, remap, highs, |highs|).Some?
    requires k < |code| && code[k].Long? && Opcode(code[k].w) != OP_AUIPC
    ensures FixHighs(code, remap, highs, |highs|).value[k] == code[k]
  {
    hide IndexAt, FixHighs, Opcode, UpperWord;
    forall j | 0 <= j < |highs| && HighSpot(code, remap, highs[j]).Some?
      ensures HighSpot(code, remap, highs[j]).value.k != k
    {
      HighsHere(code, remap, highs, |highs|, j);
    }
    HighsElsewhere(code, remap, highs, |highs|, k);
  }

  /** After the fixup a kept pair holds the two halves of the displacement. */
  lemma PairFixed(code: seq<Chunk>, remap: map<nat, nat>, highs: seq<HighRef>, lows: seq<LowRef>, a: nat, l: nat, t: nat)
    requires GoodMap(code, remap) && Distinct(highs, lows) && Fixup(code, remap, highs, lows).Some?
    requires KeptPair(code, remap, highs, lows, a, l, t)
    ensures
      var out := Fixup(code, remap, highs, lows).value;
      var ka, kl := IndexAt(code, remap[a]).value, IndexAt(code, remap[l]).value;
      var nt: int, na: int := remap[t], remap[a];
      && out[ka] == Long(UpperWord(code[ka].w, nt - na, OP_AUIPC))
      && out[kl] == Long(PatchI(code[kl].w, Lo(nt - na)))
  {
    hide IndexAt, FixHighs, FixLows, Opcode, UpperWord, PatchI, PatchS, Lo;
    var ka, kl := IndexAt(code, remap[a]).value, IndexAt(code, remap[l]).value;
    var c := FixHighs(code, remap, highs, |highs|).value;
    var i :| 0 <= i < |highs| && highs[i] == HighRef(a, t);
    var j :| 0 <= j < |lows| && lows[j] == LowRef(l, a, t);
    HighsHere(code, remap, highs, |highs|, i);
    HighPatched(code[ka], ka + 1 == |code|, HighSpot(code, remap, highs[i]).value.disp);
    LowsSkip(code, c, remap, lows, |lows|, ka);
    LowsHere(code, c, remap, lows, |lows|, j);
    HighsMiss(code, remap, highs, kl);
  }

  // ---- Data references ------------------------------------------------------

  /** A data `auipc` becomes a `lui` of the absolute address (`fold_auipc_to_lui`). */
  function FoldToLui(c: Chunk, eff: u32): Option<Chunk> {
    match c
    case Short(_) => None
    case Long(w) =>
      if Opcode(w) != OP_AUIPC then None
      else
        UpperProper(w, eff, OP_LUI);
        Some(Long(UpperWord(w, eff, OP_LUI)))
  }

  /** Offset a folded pair's second instruction adds. */
  function LowImm(w: u32): int {
    if Opcode(w) == 0x23 then ImmS(w) else ImmI(w)
  }

  /** Folding fails exactly on anything but an `auipc`; a folded pair addresses
      the target in the data mapping, modulo 2^32. */
  lemma FoldedPair(high: Chunk, low: Chunk, target: nat)
    requires low.Long? && Opcode(low.w) in {0x03, 0x13, 0x67, 0x23}
    ensures
      var eff := U32(target + 0x1000_0000);
      && (FoldToLui(high, eff).Some? <==> high.Long? && Opcode(high.w) == OP_AUIPC)
      && (FoldToLui(high, eff).Some? ==>
            var lui := FoldToLui(high, eff).value.w;
            && Opcode(lui) == OP_LUI && Field(lui, 0x80, 0x20) == Field(high.w, 0x80, 0x20)
            && U32(SignExtend32(U32(UpperImm(lui))) + LowImm(FixLow(low, eff).w)) == eff)
  {
    hide UpperWord, PatchI, PatchS, Field, Lo, ImmI, ImmS, UpperImm, SignExtend32, U32;
    var eff := U32(target + 0x1000_0000);
    PatchIFields(low.w, Lo(eff));
    LowBits(PatchI(low.w, Lo(eff)), low.w, 0x10_0000, 0x2000, 0x80);
    PatchSFields(low.w, Lo(eff));
    if FoldToLui(high, eff).Some? {
      UpperWordFields(high.w, eff, OP_LUI);
      LuiPair(eff, high.w);
    }
  }
}
