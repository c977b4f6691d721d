/** Instructions as predecode and the interpreter see them (nub-exec
    `instruction.rs`, `regs.rs`).

    Control flow, `lui` and `auipc` are decoded here. The remaining loads,
    stores and arithmetic come from a `PlainDecoder`, over which every result
    about decoding is quantified. */
module Isa {
  import opened Prelude
  import opened Encoding

  datatype Cond = Eq | Ne | Lt | Ge | Ltu | Geu

  /** Cost-table rows of arithmetic on one register and on two. */
  type UnaryKind = k: int | k in {12, 13, 24, 25, 30, 32, 34, 36} witness 12

  type BinaryKind = k: int | 14 <= k < 38 && k !in {24, 25, 30, 32, 34, 36} witness 14

  type Width = n: int | n in {1, 2, 4, 8} witness 1

  datatype Inst =
    | Load(rd: nat, rs1: nat, imm: int, width: Width, signed: bool)
    | Store(rs1: nat, rs2: nat, imm: int, width: Width)
    | Unary(unary: UnaryKind, rd: nat, rs1: nat, raw: nat)
    | Binary(binary: BinaryKind, rd: nat, rs1: nat, rs2: nat, raw: nat)
    | Lui(rd: nat, imm: int)
    | Auipc(rd: nat, imm: int)
    | Jal(rd: nat, imm: int)
    | Jalr(rd: nat, rs1: nat, imm: int)
    | Branch(cond: Cond, rs1: nat, rs2: nat, imm: int)
    | Fence
    | Trap
    | EcallJar
    | Ecalli(imm: int)
    | Fallthrough
    | Reserved

  predicate IsEcall(i: Inst) {
    i.EcallJar? || i.Ecalli?
  }

  /** Anything that can leave the fall-through path. */
  predicate IsTerminator(i: Inst) {
    i.Jal? || i.Jalr? || i.Branch? || i.Trap? || i.EcallJar? || i.Ecalli? || i.Fallthrough? || i.Reserved?
  }

  /** Register slot of `x`; 255 for `x0` and the registers RV64E lacks. */
  function Slot(x: nat): (s: nat)
    ensures s < 15 || s == 255
    ensures s < 15 <==> 1 <= x % 32 <= 15
  {
    var r := x % 32;
    if r == 0 then 255
    else if r <= 2 then r - 1
    else if r <= 4 then r + 10
    else if r <= 15 then r - 3
    else 255
  }

  /** Distinct registers occupy distinct slots. */
  lemma SlotInjective(x: nat, y: nat)
    requires x < 32 && y < 32 && Slot(x) == Slot(y) < 15
    ensures x == y
  {
  }

  /** `Lui` is here for `c.lui`. */
  type Plain = i: Inst | i.Load? || i.Store? || i.Unary? || i.Binary? || i.Lui? || i.Fence? || i.Reserved? witness Fence

  type PlainDecoder = nat -> Plain

  /** An instruction naming `x16..x31` is a reserved encoding. */
  function Refuse(i: Inst, named: set<nat>): Inst {
    if exists r <- named :: r >= 16 then Reserved else i
  }

  /** `(w & 0xFFFFF000) as i32`. */
  function UpperImm(w: u32): int {
    Signed(Above(w, 0x1000) * 0x1000, 0x8000_0000)
  }

  /** `decode_32`; `w` ends in binary 11. */
  function DecodeWord(w: u32, plain: PlainDecoder): Inst {
    var op, rd, funct3 := Field(w, 1, 0x80), Field(w, 0x80, 0x20), Field(w, 0x1000, 8);
    var rs1, rs2 := Field(w, 0x8000, 0x20), Field(w, 0x10_0000, 0x20);
    if op == 0x6F then Refuse(Jal(rd, ImmJ(w)), {rd})
    else if op == 0x67 then if funct3 == 0 then Refuse(Jalr(rd, rs1, ImmI(w)), {rd, rs1}) else Reserved
    else if op == 0x63 then
      if funct3 == 2 || funct3 == 3 then Reserved
      else
        var cond := if funct3 == 0 then Eq else if funct3 == 1 then Ne else if funct3 == 4 then Lt
                    else if funct3 == 5 then Ge else if funct3 == 6 then Ltu else Geu;
        Refuse(Branch(cond, rs1, rs2, ImmB(w)), {rs1, rs2})
    else if op == 0x0B then
      if funct3 == 0 then Trap
      else if funct3 == 1 then EcallJar
      else if funct3 == 2 then Ecalli(ImmI(w))
      else if funct3 == 4 then Fallthrough
      else Reserved
    else if op == 0x37 then Refuse(Lui(rd, UpperImm(w)), {rd})
    else if op == 0x17 then Refuse(Auipc(rd, UpperImm(w)), {rd})
    else if op == 0x73 || op == 0x2B then Reserved
    else plain(w)
  }

  /** `decompress`; `h` does not end in binary 11. */
  function DecodeHalf(h: half, plain: PlainDecoder): Inst {
    var quad, f3 := Field(h, 1, 4), Above(h, 0x2000);
    if quad == 1 && f3 == 5 then Jal(0, ImmCJ(h))
    else if quad == 1 && (f3 == 6 || f3 == 7) then
      Branch(if f3 == 6 then Eq else Ne, Field(h, 0x80, 8) + 8, 0, ImmCB(h))
    else if quad == 2 && f3 == 4 then
      var bit12, r, s := Field(h, 0x1000, 2), Field(h, 0x80, 0x20), Field(h, 4, 0x20);
      if r != 0 && s == 0 then Refuse(Jalr(bit12, r, 0), {r})
      else if r != 0 then plain(h)
      else Reserved
    else if quad == 0 && f3 == 0 && Field(h, 0x20, 0x100) == 0 then Reserved
    else plain(h)
  }

  // ---- Byte streams ---------------------------------------------------------

  function HalfAt(code: seq<byte>, pc: nat): half
    requires pc + 2 <= |code|
  {
    var lo: int, hi: int := code[pc], code[pc + 1];
    lo + 0x100 * hi
  }

  function WordAt(code: seq<byte>, pc: nat): u32
    requires pc + 4 <= |code|
  {
    var lo: int, hi: int := HalfAt(code, pc), HalfAt(code, pc + 2);
    lo + 0x1_0000 * hi
  }

  datatype Decoded = Decoded(inst: Inst, len: nat)

  /** `decode` at `pc`: the low two bits tell two bytes from four. */
  function Decode(code: seq<byte>, pc: nat, plain: PlainDecoder): (r: Option<Decoded>)
    requires pc <= |code|
    ensures r.Some? ==> (r.value.len == 2 || r.value.len == 4) && pc + r.value.len <= |code|
    ensures r.None? ==> |code| - pc < 4
  {
    if |code| - pc < 2 then None
    else if HalfAt(code, pc) % 4 != 3 then Some(Decoded(DecodeHalf(HalfAt(code, pc), plain), 2))
    else if |code| - pc < 4 then None
    else Some(Decoded(DecodeWord(WordAt(code, pc), plain), 4))
  }
}
