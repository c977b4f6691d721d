/** Code as a list of instructions: the view the linker's injection pass works
    on, and its own terminator rule (nub-linker `link.rs`). */
module Chunks {
  import opened Prelude
  import opened Encoding
  import opened Isa
  import Pre = Predecode

  datatype RawChunk = Short(h: half) | Long(w: u32)

  /** Low bits 11 mark four-byte instructions. */
  predicate Proper(c: RawChunk) {
    match c
    case Short(h) => h % 4 != 3
    case Long(w) => w % 4 == 3
  }

  type Chunk = c: RawChunk | Proper(c) witness Short(0)

  function Len(c: Chunk): (n: nat)
    ensures n == 2 || n == 4
  {
    if c.Short? then 2 else 4
  }

  /** Byte offset of instruction `i`. */
  function At(cs: seq<Chunk>, i: nat): (a: nat)
    requires i <= |cs|
    ensures a % 2 == 0
  {
    if i == 0 then 0 else At(cs, i - 1) + Len(cs[i - 1])
  }

  lemma {:induction false} AtMono(cs: seq<Chunk>, i: nat, j: nat)
    requires i < j <= |cs|
    ensures At(cs, i) + Len(cs[i]) <= At(cs, j)
    decreases j
  {
    if i + 1 < j {
      AtMono(cs, i, j - 1);
    }
  }

  function IndexBelow(cs: seq<Chunk>, pc: int, n: nat): (r: Option<nat>)
    requires n <= |cs|
    ensures r.Some? ==> r.value < n && At(cs, r.value) == pc
    ensures r.None? ==> forall i :: 0 <= i < n ==> At(cs, i) != pc
  {
    if n == 0 then None
    else if At(cs, n - 1) == pc then Some(n - 1)
    else IndexBelow(cs, pc, n - 1)
  }

  /** The instruction starting at an offset. */
  function IndexAt(cs: seq<Chunk>, pc: int): (r: Option<nat>)
    ensures r.Some? ==> r.value < |cs| && At(cs, r.value) == pc
    ensures r.None? ==> forall i :: 0 <= i < |cs| ==> At(cs, i) != pc
  {
    IndexBelow(cs, pc, |cs|)
  }

  lemma IndexUnique(cs: seq<Chunk>, i: nat)
    requires i < |cs|
    ensures IndexAt(cs, At(cs, i)) == Some(i)
  {
    hide IndexAt, At;
    var r := IndexAt(cs, At(cs, i));
    assert r.Some?;
    if r.value < i {
      AtMono(cs, r.value, i);
    } else if i < r.value {
      AtMono(cs, i, r.value);
    }
  }

  // ---- Bytes ----------------------------------------------------------------

  function HalfBytes(h: half): (b: seq<byte>)
    ensures |b| == 2
  {
    [h % 0x100, h / 0x100]
  }

  function Bytes(c: Chunk): (b: seq<byte>)
    ensures |b| == Len(c)
  {
    match c
    case Short(h) => HalfBytes(h)
    case Long(w) => HalfBytes(w % 0x1_0000) + HalfBytes(w / 0x1_0000)
  }

  function FlattenTo(cs: seq<Chunk>, i: nat): (code: seq<byte>)
    requires i <= |cs|
    ensures |code| == At(cs, i)
  {
    if i == 0 then [] else FlattenTo(cs, i - 1) + Bytes(cs[i - 1])
  }

  function Flatten(cs: seq<Chunk>): seq<byte> {
    FlattenTo(cs, |cs|)
  }

  lemma {:induction false} FlattenPrefix(cs: seq<Chunk>, i: nat, j: nat)
    requires i <= j <= |cs|
    ensures FlattenTo(cs, i) <= FlattenTo(cs, j)
    decreases j
  {
    if i < j {
      FlattenPrefix(cs, i, j - 1);
    }
  }

  lemma FlattenAt(cs: seq<Chunk>, i: nat)
    requires i < |cs|
    ensures At(cs, i) + Len(cs[i]) <= |Flatten(cs)|
    ensures Flatten(cs)[At(cs, i)..At(cs, i) + Len(cs[i])] == Bytes(cs[i])
  {
    hide Bytes;
    AtMono(cs, i, |cs|);
    FlattenPrefix(cs, i + 1, |cs|);
    var a, n := At(cs, i), Len(cs[i]);
    assert Flatten(cs)[..a + n] == FlattenTo(cs, i + 1) == FlattenTo(cs, i) + Bytes(cs[i]);
    assert Flatten(cs)[a..a + n] == Flatten(cs)[..a + n][a..];
  }

  // ---- The decoder on instructions ------------------------------------------

  function InstOf(c: Chunk, plain: PlainDecoder): Inst {
    match c
    case Short(h) => DecodeHalf(h, plain)
    case Long(w) => DecodeWord(w, plain)
  }

  lemma DecodeBytes(code: seq<byte>, pc: nat, c: Chunk, plain: PlainDecoder)
    requires pc + Len(c) <= |code| && code[pc..pc + Len(c)] == Bytes(c)
    ensures Decode(code, pc, plain) == Some(Decoded(InstOf(c, plain), Len(c)))
  {
    hide DecodeHalf, DecodeWord;
    var b := code[pc..pc + Len(c)];
    assert code[pc] == b[0] && code[pc + 1] == b[1];
    match c {
      case Short(h) =>
        assert HalfAt(code, pc) == h;
      case Long(w) =>
        assert code[pc + 2] == b[2] && code[pc + 3] == b[3];
        assert b[..2] == HalfBytes(w % 0x1_0000) && b[2..] == HalfBytes(w / 0x1_0000);
        assert b[2] == b[2..][0] && b[3] == b[2..][1];
        assert HalfAt(code, pc) == w % 0x1_0000;
        assert HalfAt(code, pc + 2) == w / 0x1_0000;
    }
  }

  /** Predecode's sweep of flattened code sees exactly the instructions. */
  function EntriesFrom(cs: seq<Chunk>, i: nat, plain: PlainDecoder): (r: seq<Pre.Entry>)
    requires i <= |cs|
    ensures |r| == |cs| - i
    ensures forall k :: 0 <= k < |r| ==>
      r[k] == Pre.Entry(InstOf(cs[i + k], plain), At(cs, i + k), At(cs, i + k + 1), false)
    decreases |cs| - i
  {
    if i == |cs| then []
    else [Pre.Entry(InstOf(cs[i], plain), At(cs, i), At(cs, i + 1), false)] + EntriesFrom(cs, i + 1, plain)
  }

  lemma NothingLeft(code: seq<byte>, plain: PlainDecoder)
    ensures Pre.Sweep(code, |code|, plain) == []
  {
  }

  lemma {:induction false} SweepSees(cs: seq<Chunk>, i: nat, plain: PlainDecoder)
    requires i <= |cs|
    ensures At(cs, i) <= |Flatten(cs)| && Pre.Sweep(Flatten(cs), At(cs, i), plain) == EntriesFrom(cs, i, plain)
    decreases |cs| - i
  {
    hide Decode, InstOf, FlattenTo;
    if i < |cs| {
      AtMono(cs, i, |cs|);
      FlattenAt(cs, i);
      DecodeBytes(Flatten(cs), At(cs, i), cs[i], plain);
      SweepSees(cs, i + 1, plain);
    } else {
      NothingLeft(Flatten(cs), plain);
    }
  }

  // ---- The linker's classification ------------------------------------------

  function Opcode(w: u32): nat {
    Field(w, 1, 0x80)
  }

  /** Compressed instructions that branch: `c.j`, `c.beqz`, `c.bnez`. */
  predicate IsCJ(h: half) {
    Field(h, 1, 4) == 1 && Above(h, 0x2000) == 5
  }

  predicate IsCB(h: half) {
    Field(h, 1, 4) == 1 && (Above(h, 0x2000) == 6 || Above(h, 0x2000) == 7)
  }

  /** `c.jr`, `c.jalr` and `c.ebreak`. */
  predicate IsJrLike(h: half) {
    && Field(h, 1, 4) == 2 && Above(h, 0x2000) == 4
    && Field(h, 4, 0x20) == 0 && (Field(h, 0x1000, 2) == 1 || Field(h, 0x80, 0x20) != 0)
  }

  predicate IsTerm(c: Chunk) {
    match c
    case Short(h) => h == 0 || IsCJ(h) || IsCB(h) || IsJrLike(h)
    case Long(w) => Opcode(w) in {0x6F, 0x67, 0x63, 0x0B}
  }

  /** Displacement of a static branch or jump. */
  function Disp(c: Chunk): (d: Option<int>)
    ensures d.Some? ==> d.value % 2 == 0 && IsTerm(c)
  {
    match c
    case Short(h) => if IsCJ(h) then Some(ImmCJ(h)) else if IsCB(h) then Some(ImmCB(h)) else None
    case Long(w) =>
      if Opcode(w) == 0x6F then Some(ImmJ(w)) else if Opcode(w) == 0x63 then Some(ImmB(w)) else None
  }

  lemma ZeroHalf()
    ensures Field(0, 1, 4) == 0 && Above(0, 0x2000) == 0 && Field(0, 0x20, 0x100) == 0
  {
  }

  /** Every instruction the linker calls a terminator is one for predecode, and the
      only others are reserved encodings. */
  lemma LinkerTerminators(c: Chunk, plain: PlainDecoder)
    ensures IsTerm(c) ==> IsTerminator(InstOf(c, plain))
    ensures IsTerminator(InstOf(c, plain)) && !InstOf(c, plain).Reserved? ==> IsTerm(c)
  {
    if c.Short? && c.h == 0 {
      ZeroHalf();
    }
    hide Field, Above, ImmJ, ImmB, ImmI, ImmCJ, ImmCB, UpperImm;
  }

  /** Both agree on where a static branch goes, unless predecode refuses it. */
  lemma SameTargets(c: Chunk, plain: PlainDecoder)
    ensures
      var i := InstOf(c, plain);
      && (i.Jal? || i.Branch? ==> Disp(c) == Some(i.imm))
      && (Disp(c).Some? ==> i.Jal? || i.Branch? || i.Reserved?)
  {
    hide Field, Above, ImmJ, ImmB, ImmI, ImmCJ, ImmCB, UpperImm;
  }
}
