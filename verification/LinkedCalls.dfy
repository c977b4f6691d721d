/** From the linker to the interpreter: a call kept as `auipc` + `jalr` reaches
    its target, which the interpreter accepts as a block start (nub-linker
    `link.rs`, nub-exec `interp.rs`). */
module LinkedCalls {
  import opened Prelude
  import opened Encoding
  import opened Isa
  import opened Chunks
  import opened Inject
  import opened PcRel
  import opened Interp
  import Pre = Predecode

  lemma RemapAt(cs: seq<Chunk>, marks: seq<bool>, i: nat)
    requires i < |cs| == |marks|
    ensures At(cs, i) in RemapOf(cs, marks) && RemapOf(cs, marks)[At(cs, i)] == NewAt(cs, marks, i)
  {
    hide At, IndexAt, NewAt;
    AtMono(cs, i, |cs|);
    IndexUnique(cs, i);
  }

  lemma NewIndex(cs: seq<Chunk>, marks: seq<bool>, news: seq<Chunk>, code: seq<Chunk>, i: nat)
    requires Woven(cs, marks, news, code) && i < |cs|
    ensures |cs| == |marks|
    ensures IndexAt(code, NewAt(cs, marks, i)) == Some(NewIdx(marks, i))
  {
    hide Relinked, At, IndexAt, NewAt, Weave;
    WovenOffset(cs, marks, news, code, i);
    IndexUnique(code, NewIdx(marks, i));
  }

  lemma NewApart(cs: seq<Chunk>, marks: seq<bool>, i: nat, j: nat)
    requires i < |cs| == |marks| && j < |cs| && NewAt(cs, marks, i) == NewAt(cs, marks, j)
    ensures i == j
  {
    if i < j {
      NewAtMono(cs, marks, i, j);
    } else if j < i {
      NewAtMono(cs, marks, j, i);
    }
  }

  lemma RemapGood(cs: seq<Chunk>, extra: set<nat>)
    requires Align(cs, extra).Linked?
    ensures GoodMap(Align(cs, extra).code, RemapOf(cs, Marks(cs, extra)))
  {
    hide Align, Woven, IndexAt, At, NewAt;
    var marks, code := Marks(cs, extra), Align(cs, extra).code;
    var news := AlignWoven(cs, extra);
    var remap := RemapOf(cs, marks);
    forall o <- remap ensures IndexAt(code, remap[o]).Some? {
      NewIndex(cs, marks, news, code, IndexAt(cs, o).value);
    }
    forall o <- remap, p <- remap | remap[o] == remap[p] ensures o == p {
      NewApart(cs, marks, IndexAt(cs, o).value, IndexAt(cs, p).value);
    }
  }

  /** Injection, then the fixup. */
  function Link(cs: seq<Chunk>, extra: set<nat>, highs: seq<HighRef>, lows: seq<LowRef>): Option<seq<Chunk>> {
    if Align(cs, extra).LinkError? then None
    else
      RemapGood(cs, extra);
      Fixup(Align(cs, extra).code, RemapOf(cs, Marks(cs, extra)), highs, lows)
  }

  /** A kept call: `auipc` instruction `a`, `jalr` instruction `l`, target
      instruction `t`, by their positions in the old program. */
  datatype Call = Call(a: nat, l: nat, t: nat)

  predicate IsCall(cs: seq<Chunk>, highs: seq<HighRef>, lows: seq<LowRef>, c: Call) {
    && c.a < |cs| && c.l < |cs| && c.t < |cs|
    && HighRef(At(cs, c.a), At(cs, c.t)) in highs
    && LowRef(At(cs, c.l), At(cs, c.a), At(cs, c.t)) in lows
    && cs[c.a].Long? && cs[c.l].Long? && Opcode(cs[c.l].w) == 0x67
  }

  lemma SameWord(c: Chunk, c': Chunk)
    requires Alike(c, c') && c.Long? && Opcode(c.w) != 0x6F && Opcode(c.w) != 0x63
    ensures c' == c
  {
    if c'.Long? {
      KeepsJ(c'.w, 0);
      KeepsB(c'.w, 0);
    }
  }

  /** Injection leaves the words of a call alone. */
  lemma CallWords(cs: seq<Chunk>, extra: set<nat>, i: nat)
    requires Align(cs, extra).Linked? && i < |cs| && cs[i].Long? && Opcode(cs[i].w) != 0x6F && Opcode(cs[i].w) != 0x63
    ensures
      var k := NewIdx(Marks(cs, extra), i);
      k < |Align(cs, extra).code| && Align(cs, extra).code[k] == cs[i]
  {
    hide Align, IsTerm, Opcode, IndexAt, Recode;
    var marks := Marks(cs, extra);
    var news := AlignWoven(cs, extra);
    WovenOffset(cs, marks, news, Align(cs, extra).code, i);
    assert Relinked(cs, marks, i, news[i]);
    SameWord(cs[i], news[i]);
  }

  /** The words of a call after linking. */
  lemma CallLinked(cs: seq<Chunk>, extra: set<nat>, highs: seq<HighRef>, lows: seq<LowRef>, c: Call)
    requires Link(cs, extra, highs, lows).Some? && Distinct(highs, lows) && IsCall(cs, highs, lows, c)
    requires Opcode(cs[c.a].w) == OP_AUIPC
    ensures
      var marks, out := Marks(cs, extra), Link(cs, extra, highs, lows).value;
      var na, nt := NewAt(cs, marks, c.a), NewAt(cs, marks, c.t);
      && |out| == |Align(cs, extra).code|
      && NewIdx(marks, c.a) < |out| && out[NewIdx(marks, c.a)] == Long(UpperWord(cs[c.a].w, nt - na, OP_AUIPC))
      && NewIdx(marks, c.l) < |out| && out[NewIdx(marks, c.l)] == Long(PatchI(cs[c.l].w, Lo(nt - na)))
      && KeepsBlocks(Align(cs, extra).code, out)
  {
    hide Align, Woven, GoodMap, IndexAt, At, NewAt, NewIdx, Fixup, RemapOf, UpperWord, PatchI, Lo, Opcode, KeepsBlocks, Distinct;
    var marks, code := Marks(cs, extra), Align(cs, extra).code;
    RemapGood(cs, extra);
    var remap := RemapOf(cs, marks);
    var news := AlignWoven(cs, extra);
    RemapAt(cs, marks, c.a);
    RemapAt(cs, marks, c.l);
    RemapAt(cs, marks, c.t);
    NewIndex(cs, marks, news, code, c.a);
    NewIndex(cs, marks, news, code, c.l);
    CallWords(cs, extra, c.a);
    CallWords(cs, extra, c.l);
    PairFixed(code, remap, highs, lows, At(cs, c.a), At(cs, c.l), At(cs, c.t));
    FixupKeepsBlocks(code, remap, highs, lows);
  }

  /** After injection and fixup, every static target and every extra target that
      was an instruction start is a block start in predecode's own marking. */
  lemma LinkedTargets(
    cs: seq<Chunk>, extra: set<nat>, highs: seq<HighRef>, lows: seq<LowRef>, t: nat, plain: PlainDecoder)
    requires Link(cs, extra, highs, lows).Some? && t < |cs| && Targeted(cs, extra, t)
    ensures
      var insts := Pre.Mark(Pre.Sweep(Flatten(Link(cs, extra, highs, lows).value), 0, plain));
      var k := NewIdx(Marks(cs, extra), t);
      k < |insts| && insts[k].pc == Align(cs, extra).offsets[t] && insts[k].start
  {
    hide Align, Fixup, GoodMap, RemapOf, Targeted, KeepsBlocks, Flatten, Pre.Sweep, Pre.Mark, NewIdx;
    RemapGood(cs, extra);
    FixupKeepsBlocks(Align(cs, extra).code, RemapOf(cs, Marks(cs, extra)), highs, lows);
    TargetsStartBlocks(cs, extra, t, Link(cs, extra, highs, lows).value, plain);
  }

  // ---- Running a linked call ------------------------------------------------

  /** The linked program as the interpreter loads it. */
  predicate Loaded<H>(m: Machine<H>, out: seq<Chunk>, plain: PlainDecoder) {
    && m.p.insts == Pre.Mark(Pre.Sweep(Flatten(out), 0, plain))
    && Pre.Priced(m.p)
  }

  lemma LoadedAt<H>(m: Machine<H>, out: seq<Chunk>, plain: PlainDecoder, k: nat)
    requires Loaded(m, out, plain) && k < |out|
    ensures |m.p.insts| == |out|
    ensures m.p.insts[k].inst == InstOf(out[k], plain) && m.p.insts[k].pc == At(out, k)
  {
    hide InstOf, Flatten, Pre.Sweep, Pre.Priced;
    SweepSees(out, 0, plain);
    assert EntriesFrom(out, 0, plain)[k].pc == At(out, 0 + k);
  }

  /** Register value an `auipc` leaves. */
  function AuipcValue(codeBase: u32, pc: nat, imm: int): u64 {
    SignExtend32(U32(codeBase + pc + imm))
  }

  lemma UpperDecodes(w: u32, plain: PlainDecoder)
    requires Opcode(w) == OP_AUIPC
    ensures DecodeWord(w, plain).Auipc? ==> DecodeWord(w, plain) == Auipc(Field(w, 0x80, 0x20), UpperImm(w))
  {
    hide Field, UpperImm;
  }

  lemma JalrDecodes(w: u32, plain: PlainDecoder)
    requires DecodeWord(w, plain).Jalr?
    ensures DecodeWord(w, plain).imm == ImmI(w)
  {
    hide Field, ImmI;
  }

  /** Running an `auipc` leaves its value in the register it names. */
  lemma AuipcRuns<H>(m: Machine<H>, k: nat, g: Gpr, mem: GoodMem, host: H)
    requires k < |m.p.insts| && m.p.insts[k].inst.Auipc? && Slot(m.p.insts[k].inst.rd) < 15
    ensures
      var e := Body(m, k, g, mem, host);
      e.Go? ==> RegRead(e.gpr, m.p.insts[k].inst.rd) == AuipcValue(m.codeBase, m.p.insts[k].pc, m.p.insts[k].inst.imm)
  {
    hide Slot, SignExtend32, U32;
  }

  /** What the two linked words decode to. */
  lemma CallImm(high: Chunk, low: Chunk, wa: u32, wl: u32, disp: int, plain: PlainDecoder)
    requires high == Long(UpperWord(wa, disp, OP_AUIPC)) && low == Long(PatchI(wl, Lo(disp)))
    requires InstOf(high, plain).Auipc? && InstOf(low, plain).Jalr?
    ensures InstOf(high, plain).imm == UpperImm(UpperWord(wa, disp, OP_AUIPC)) && InstOf(low, plain).imm == Lo(disp)
  {
    hide UpperWord, PatchI, Lo, DecodeWord, UpperImm;
    UpperWordFields(wa, disp, OP_AUIPC);
    UpperDecodes(high.w, plain);
    JalrDecodes(low.w, plain);
    PatchIFields(wl, Lo(disp));
  }

  lemma CallAddress(codeBase: u32, na: nat, nt: nat, imm: int, lo: int, g: Gpr, rs1: nat)
    requires RegRead(g, rs1) == AuipcValue(codeBase, na, imm)
    requires U32(SignExtend32(U32(codeBase + na + imm)) + lo) == U32(codeBase + nt) && nt < 0x1_0000_0000
    ensures U32(Addr(g, rs1, lo) - codeBase) == nt
  {
    hide U32, SignExtend32;
    var base: int := codeBase;
    U32Add(base + nt, -base);
    U32Small(nt);
  }

  lemma Increasing(p: Pre.Predecoded, k: nat)
    requires Pre.Contiguous(p.insts) && k < |p.insts|
    ensures p.insts[k].pc < p.insts[k].next
  {
  }

  lemma CallTarget<H>(
    cs: seq<Chunk>, extra: set<nat>, highs: seq<HighRef>, lows: seq<LowRef>, c: Call, m: Machine<H>, out: seq<Chunk>,
    plain: PlainDecoder)
    requires Link(cs, extra, highs, lows).Some? && c.a < |cs| && c.t < |cs| && At(cs, c.t) in extra
    requires Loaded(m, out, plain) && KeepsBlocks(Align(cs, extra).code, out)
    ensures
      var marks := Marks(cs, extra);
      var ka, kt := NewIdx(marks, c.a), NewIdx(marks, c.t);
      && kt < |m.p.insts| && m.p.insts[kt].start && m.p.insts[kt].pc == NewAt(cs, marks, c.t) < 0x1_0000_0000
      && ka < |m.p.insts| && m.p.insts[ka].pc == NewAt(cs, marks, c.a)
  {
    hide Align, Woven, IsTerm, At, NewAt, NewIdx, Flatten, Pre.Sweep, Pre.Mark, Pre.Priced, InstOf;
    var marks := Marks(cs, extra);
    var news := AlignWoven(cs, extra);
    var ka, kt := NewIdx(marks, c.a), NewIdx(marks, c.t);
    TargetsStartBlocks(cs, extra, c.t, out, plain);
    WovenOffset(cs, marks, news, Align(cs, extra).code, c.a);
    KeepsOffsets(Align(cs, extra).code, out, ka);
    LoadedAt(m, out, plain, ka);
    PricedStart(m.p, kt);
    Increasing(m.p, kt);
  }

  /** The interpreter finds a block start by its offset. */
  lemma Landing<H>(m: Machine<H>, out: seq<Chunk>, plain: PlainDecoder, k: nat)
    requires Loaded(m, out, plain) && k < |m.p.insts|
    ensures Find(m.p.insts, m.p.insts[k].pc) == Some(k)
  {
    hide Pre.Priced, Pre.Contiguous, Find;
    PricedStart(m.p, k);
    FindUnique(m.p.insts, k);
  }

  /** A linked call reaches its target. Running the `auipc` leaves a value in its
      register; running the `jalr` with that value in the register it reads goes
      to the target's new position, a block start at the mapped offset. */
  lemma CallReaches<H>(
    cs: seq<Chunk>, extra: set<nat>, highs: seq<HighRef>, lows: seq<LowRef>, c: Call, m: Machine<H>, plain: PlainDecoder,
    g: Gpr, mem: GoodMem, host: H)
    requires Link(cs, extra, highs, lows).Some? && Distinct(highs, lows) && IsCall(cs, highs, lows, c)
    requires Opcode(cs[c.a].w) == OP_AUIPC && At(cs, c.t) in extra
    requires Loaded(m, Link(cs, extra, highs, lows).value, plain)
    requires
      var marks := Marks(cs, extra);
      var ka, kl := NewIdx(marks, c.a), NewIdx(marks, c.l);
      ka < |m.p.insts| && kl < |m.p.insts| && m.p.insts[ka].inst.Auipc? && m.p.insts[kl].inst.Jalr?
      && RegRead(g, m.p.insts[kl].inst.rs1) == AuipcValue(m.codeBase, m.p.insts[ka].pc, m.p.insts[ka].inst.imm)
    ensures
      var marks := Marks(cs, extra);
      var kl, kt := NewIdx(marks, c.l), NewIdx(marks, c.t);
      var e := Body(m, kl, g, mem, host);
      && kt < |m.p.insts| && m.p.insts[kt].start && m.p.insts[kt].pc == NewAt(cs, marks, c.t)
      && e.Go? && e.idx == kt && e.mem == mem && e.host == host && e.charge == 0
  {
    hide Link, Align, Loaded, Distinct, IndexAt, At, NewAt, NewIdx, UpperWord, PatchI, Lo, Opcode, InstOf, AuipcValue, UpperImm,
         RegRead, RegWrite, Find, U32, Pre.Priced, KeepsBlocks, Targeted;
    var marks, out := Marks(cs, extra), Link(cs, extra, highs, lows).value;
    var ka, kl, kt := NewIdx(marks, c.a), NewIdx(marks, c.l), NewIdx(marks, c.t);
    var na: int, nt: int := NewAt(cs, marks, c.a), NewAt(cs, marks, c.t);
    CallLinked(cs, extra, highs, lows, c);
    CallTarget(cs, extra, highs, lows, c, m, out, plain);
    LoadedAt(m, out, plain, ka);
    LoadedAt(m, out, plain, kl);
    CallImm(out[ka], out[kl], cs[c.a].w, cs[c.l].w, nt - na, plain);
    AuipcPair(m.codeBase, na, nt, cs[c.a].w);
    CallAddress(m.codeBase, na, nt, m.p.insts[ka].inst.imm, Lo(nt - na), g, m.p.insts[kl].inst.rs1);
    Landing(m, out, plain, kt);
  }
}
