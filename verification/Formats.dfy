/** The decoder against the instruction formats of the RISC-V Unprivileged ISA
    (20191213, section 2.2 and chapter 16) and the custom-0 operations (nub-exec
    `instruction.rs`): every word assembled field by field decodes as the fields
    say. */
module Formats {
  import opened Prelude
  import opened Encoding
  import opened Isa
  import opened LittleEndian

  /** A 32-bit word of seven-bit opcode, `rd`, `funct3`, `rs1`, `rs2` and the top
      seven bits. */
  function Word(op: nat, rd: nat, funct3: nat, rs1: nat, rs2: nat, top: nat): nat {
    op + rd * 0x80 + funct3 * 0x1000 + rs1 * 0x8000 + rs2 * 0x10_0000 + top * 0x200_0000
  }

  predicate InFields(op: nat, rd: nat, funct3: nat, rs1: nat, rs2: nat, top: nat) {
    op < 0x80 && rd < 32 && funct3 < 8 && rs1 < 32 && rs2 < 32 && top < 0x80
  }

  lemma WordFields(op: nat, rd: nat, funct3: nat, rs1: nat, rs2: nat, top: nat)
    requires InFields(op, rd, funct3, rs1, rs2, top)
    ensures
      var w := Word(op, rd, funct3, rs1, rs2, top);
      && w < 0x1_0000_0000 && Field(w, 1, 0x80) == op && Field(w, 0x80, 0x20) == rd && Field(w, 0x1000, 8) == funct3
      && Field(w, 0x8000, 0x20) == rs1 && Field(w, 0x10_0000, 0x20) == rs2
      && Above(w, 0x10_0000) == top * 32 + rs2 && Above(w, 0x1000) == (top * 32 + rs2) * 0x100 + rs1 * 8 + funct3
  {
    hide Field, Above;
    var w, x1 := Word(op, rd, funct3, rs1, rs2, top), top * 32 + rs2;
    var x2 := x1 * 32 + rs1;
    var x3 := x2 * 8 + funct3;
    Whole(w);
    Peel(w, 1, x3 * 32 + rd, op, 0x80, 0x80);
    Peel(w, 0x80, x3, rd, 32, 0x1000);
    Peel(w, 0x1000, x2, funct3, 8, 0x8000);
    Peel(w, 0x8000, x1, rs1, 32, 0x10_0000);
    Peel(w, 0x10_0000, top, rs2, 32, 0x200_0000);
  }

  /** I-type words: `jalr` and the custom-0 operations. */
  lemma ITypeDecodes(rd: nat, funct3: nat, rs1: nat, rs2: nat, top: nat, plain: PlainDecoder)
    requires InFields(0x67, rd, funct3, rs1, rs2, top)
    ensures
      var imm := top * 32 + rs2 - if top >= 0x40 then 0x1000 else 0;
      var jalr, custom := Word(0x67, rd, funct3, rs1, rs2, top), Word(0x0B, rd, funct3, rs1, rs2, top);
      && jalr < 0x1_0000_0000 && custom < 0x1_0000_0000
      && DecodeWord(jalr, plain) == (if funct3 == 0 && rd < 16 && rs1 < 16 then Jalr(rd, rs1, imm) else Reserved)
      && DecodeWord(custom, plain) == (match funct3
                                       case 0 => Trap
                                       case 1 => EcallJar
                                       case 2 => Ecalli(imm)
                                       case 4 => Fallthrough
                                       case _ => Reserved)
  {
    hide Field, Above;
    WordFields(0x67, rd, funct3, rs1, rs2, top);
    WordFields(0x0B, rd, funct3, rs1, rs2, top);
  }

  /** U-type words: `lui` and `auipc` take their upper twenty bits, signed. */
  lemma UTypeDecodes(rd: nat, funct3: nat, rs1: nat, rs2: nat, top: nat, plain: PlainDecoder)
    requires InFields(0x37, rd, funct3, rs1, rs2, top)
    ensures
      var lui, auipc := Word(0x37, rd, funct3, rs1, rs2, top), Word(0x17, rd, funct3, rs1, rs2, top);
      var imm := ((top * 32 + rs2) * 0x100 + rs1 * 8 + funct3) * 0x1000 - if top >= 0x40 then 0x1_0000_0000 else 0;
      && lui < 0x1_0000_0000 && auipc < 0x1_0000_0000
      && DecodeWord(lui, plain) == (if rd < 16 then Lui(rd, imm) else Reserved)
      && DecodeWord(auipc, plain) == (if rd < 16 then Auipc(rd, imm) else Reserved)
  {
    hide Field, Above;
    WordFields(0x37, rd, funct3, rs1, rs2, top);
    WordFields(0x17, rd, funct3, rs1, rs2, top);
  }

  /** The branch condition of a `funct3`. */
  function CondOf(funct3: nat): Option<Cond> {
    match funct3
    case 0 => Some(Eq)
    case 1 => Some(Ne)
    case 4 => Some(Lt)
    case 5 => Some(Ge)
    case 6 => Some(Ltu)
    case 7 => Some(Geu)
    case _ => None
  }

  /** B-type words: imm[12|10:5] in the top seven bits, imm[4:1|11] in the place of
      `rd`. */
  lemma BTypeDecodes(b11: nat, b4to1: nat, funct3: nat, rs1: nat, rs2: nat, b10to5: nat, b12: nat, plain: PlainDecoder)
    requires b11 < 2 && b4to1 < 16 && funct3 < 8 && rs1 < 32 && rs2 < 32 && b10to5 < 64 && b12 < 2
    ensures
      var w := Word(0x63, b4to1 * 2 + b11, funct3, rs1, rs2, b12 * 64 + b10to5);
      && w < 0x1_0000_0000
      && DecodeWord(w, plain) ==
           if CondOf(funct3).None? || rs1 >= 16 || rs2 >= 16 then Reserved
           else Branch(CondOf(funct3).value, rs1, rs2, b4to1 * 2 + b10to5 * 0x20 + b11 * 0x800 - b12 * 0x1000)
  {
    hide Field, Above;
    WordFields(0x63, b4to1 * 2 + b11, funct3, rs1, rs2, b12 * 64 + b10to5);
    var w := Word(0x63, b4to1 * 2 + b11, funct3, rs1, rs2, b12 * 64 + b10to5);
    BFields(b12, b10to5, rs2 * 0x100 + rs1 * 8 + funct3, b4to1, b11, 0x63, w);
  }

  /** J-type words: imm[20|10:1|11|19:12] above `rd`. */
  lemma JTypeDecodes(rd: nat, b19to12: nat, b11: nat, b10to1: nat, b20: nat, plain: PlainDecoder)
    requires rd < 32 && b19to12 < 0x100 && b11 < 2 && b10to1 < 0x400 && b20 < 2
    ensures
      var w := 0x6F + rd * 0x80 + b19to12 * 0x1000 + b11 * 0x10_0000 + b10to1 * 0x20_0000 + b20 * 0x8000_0000;
      && w < 0x1_0000_0000
      && DecodeWord(w, plain) ==
           if rd >= 16 then Reserved
           else Jal(rd, b10to1 * 2 + b11 * 0x800 + b19to12 * 0x1000 - b20 * 0x10_0000)
  {
    hide Field, Above;
    var low := 0x6F + rd * 0x80;
    var w := low + b19to12 * 0x1000 + b11 * 0x10_0000 + b10to1 * 0x20_0000 + b20 * 0x8000_0000;
    JFields(b20, b10to1, b11, b19to12, low, w);
    var upper := ((b20 * 0x400 + b10to1) * 2 + b11) * 0x100 + b19to12;
    Whole(w);
    Peel(w, 1, upper * 32 + rd, 0x6F, 0x80, 0x80);
    Peel(w, 0x80, upper, rd, 32, 0x1000);
  }

  // ---- Compressed -----------------------------------------------------------

  /** `c.j`: imm[11|4|9:8|10|6|7|3:1|5]. */
  lemma CJDecodes(b5: nat, b3to1: nat, b7: nat, b6: nat, b10: nat, b9to8: nat, b4: nat, b11: nat, plain: PlainDecoder)
    requires b5 < 2 && b3to1 < 8 && b7 < 2 && b6 < 2 && b10 < 2 && b9to8 < 4 && b4 < 2 && b11 < 2
    ensures
      var h := 0xA001 + b5 * 4 + b3to1 * 8 + b7 * 0x40 + b6 * 0x80 + b10 * 0x100 + b9to8 * 0x200 + b4 * 0x800 + b11 * 0x1000;
      && h < 0x1_0000
      && DecodeHalf(h, plain) ==
           Jal(0, b3to1 * 2 + b4 * 0x10 + b5 * 0x20 + b6 * 0x40 + b7 * 0x80 + b9to8 * 0x100 + b10 * 0x400 - b11 * 0x800)
  {
    hide Field, Above;
    var h := 0xA001 + b5 * 4 + b3to1 * 8 + b7 * 0x40 + b6 * 0x80 + b10 * 0x100 + b9to8 * 0x200 + b4 * 0x800 + b11 * 0x1000;
    CJFields(5, b11, b4, b9to8, b10, b6, b7, b3to1, b5, 1, h);
  }

  /** `c.beqz` and `c.bnez` on `x8..x15`: imm[8|4:3], the register,
      imm[7:6|2:1|5]. */
  lemma CBDecodes(b5: nat, b2to1: nat, b7to6: nat, r: nat, b4to3: nat, b8: nat, plain: PlainDecoder)
    requires b5 < 2 && b2to1 < 4 && b7to6 < 4 && r < 8 && b4to3 < 4 && b8 < 2
    ensures
      var h := 1 + b5 * 4 + b2to1 * 8 + b7to6 * 0x20 + r * 0x80 + b4to3 * 0x400 + b8 * 0x1000;
      var imm := b2to1 * 2 + b4to3 * 8 + b5 * 0x20 + b7to6 * 0x40 - b8 * 0x100;
      && h + 0xE000 < 0x1_0000
      && DecodeHalf(h + 0xC000, plain) == Branch(Eq, r + 8, 0, imm)
      && DecodeHalf(h + 0xE000, plain) == Branch(Ne, r + 8, 0, imm)
  {
    hide Field, Above;
    var h := 1 + b5 * 4 + b2to1 * 8 + b7to6 * 0x20 + r * 0x80 + b4to3 * 0x400 + b8 * 0x1000;
    CBFields(6, b8, b4to3, r, b7to6, b2to1, b5, 1, h + 0xC000);
    CBFields(7, b8, b4to3, r, b7to6, b2to1, b5, 1, h + 0xE000);
  }

  /** `c.jr` and `c.jalr`, which link to `x1`; without a register, reserved; with a
      second one, no jump. */
  lemma CRDecodes(s: nat, r: nat, b12: nat, plain: PlainDecoder)
    requires s < 32 && r < 32 && b12 < 2
    ensures
      var h := 2 + s * 4 + r * 0x80 + b12 * 0x1000 + 0x8000;
      && h < 0x1_0000
      && DecodeHalf(h, plain) ==
           if r == 0 then Reserved else if s != 0 then plain(h) else if r < 16 then Jalr(b12, r, 0) else Reserved
  {
    hide Field, Above;
    var h := 2 + s * 4 + r * 0x80 + b12 * 0x1000 + 0x8000;
    Whole(h);
    Peel(h, 1, ((8 + b12) * 32 + r) * 32 + s, 2, 4, 4);
    Peel(h, 4, (8 + b12) * 32 + r, s, 32, 0x80);
    Peel(h, 0x80, 8 + b12, r, 32, 0x1000);
    Peel(h, 0x1000, 4, b12, 2, 0x2000);
  }

  // ---- Bytes ----------------------------------------------------------------

  /** Instructions are little-endian; one is four bytes long exactly if its two
      lowest bits are set, and has to be there in full. */
  lemma StreamFormat(code: seq<byte>, pc: nat, plain: PlainDecoder)
    requires pc <= |code|
    ensures pc + 2 <= |code| ==> HalfAt(code, pc) == FromLe(code[pc..pc + 2])
    ensures pc + 4 <= |code| ==> WordAt(code, pc) == FromLe(code[pc..pc + 4])
    ensures Decode(code, pc, plain).Some? <==> pc + 2 <= |code| && (code[pc] % 4 == 3 ==> pc + 4 <= |code|)
    ensures Decode(code, pc, plain).Some? ==> Decode(code, pc, plain).value.len == if code[pc] % 4 == 3 then 4 else 2
  {
    hide DecodeHalf, DecodeWord, FromLe;
    if pc + 2 <= |code| {
      ReadsTwo(code, pc);
    }
    if pc + 4 <= |code| {
      ReadsFour(code, pc);
    }
  }
}
