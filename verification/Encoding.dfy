/** Branch and jump immediates of the RISC-V base and compressed formats
    (nub-linker `link.rs` encoders, nub-exec `instruction.rs` decoders; RISC-V
    Unprivileged ISA 20191213, section 2.3 and chapter 16).

    Words are integers; a bit field is a quotient and a remainder. */
module Encoding {
  import opened Prelude

  type half = h: int | 0 <= h < 0x1_0000

  /** Signed value of an `2 * top`-valued field. */
  function Signed(raw: int, top: int): int {
    if raw >= top then raw - 2 * top else raw
  }

  /** The bits from position log2(`unit`) up. */
  function Above(x: nat, unit: nat): nat {
    if unit == 0 then 0 else x / unit
  }

  /** A field of `n` values in units of `unit`. */
  function Field(x: nat, unit: nat, n: nat): (f: nat)
    ensures n > 0 ==> f < n
  {
    if n == 0 then 0 else Above(x, unit) % n
  }

  /** Low 32 bits of an integer. */
  function U32(n: int): u32 {
    n % 0x1_0000_0000
  }

  lemma U32Small(a: u32)
    ensures U32(a) == a
  {
  }

  lemma U32Add(a: int, b: int)
    ensures U32(U32(a) + b) == U32(a + b)
  {
  }

  lemma U32Shift(a: int, k: int)
    ensures U32(a + k * 0x1_0000_0000) == U32(a)
  {
  }

  // ---- Decoders -------------------------------------------------------------

  function ImmJ(w: u32): (imm: int)
    ensures -0x10_0000 <= imm < 0x10_0000 && imm % 2 == 0
  {
    Signed(Field(w, 0x8000_0000, 2) * 0x10_0000 + Field(w, 0x1000, 0x100) * 0x1000 + Field(w, 0x10_0000, 2) * 0x800 + Field(w, 0x20_0000, 0x400) * 2,
           0x10_0000)
  }

  function ImmB(w: u32): (imm: int)
    ensures -0x1000 <= imm < 0x1000 && imm % 2 == 0
  {
    Signed(Field(w, 0x8000_0000, 2) * 0x1000 + Field(w, 0x80, 2) * 0x800 + Field(w, 0x200_0000, 0x40) * 0x20 + Field(w, 0x100, 0x10) * 2, 0x1000)
  }

  function ImmI(w: u32): (imm: int)
    ensures -0x800 <= imm < 0x800
  {
    Signed(Above(w, 0x10_0000), 0x800)
  }

  function ImmCJ(h: half): (imm: int)
    ensures -0x800 <= imm < 0x800 && imm % 2 == 0
  {
    Signed(Field(h, 0x1000, 2) * 0x800 + Field(h, 0x100, 2) * 0x400 + Field(h, 0x200, 4) * 0x100 + Field(h, 0x40, 2) * 0x80
           + Field(h, 0x80, 2) * 0x40 + Field(h, 4, 2) * 0x20 + Field(h, 0x800, 2) * 0x10 + Field(h, 8, 8) * 2, 0x800)
  }

  function ImmCB(h: half): (imm: int)
    ensures -0x100 <= imm < 0x100 && imm % 2 == 0
  {
    Signed(Field(h, 0x1000, 2) * 0x100 + Field(h, 0x20, 4) * 0x40 + Field(h, 4, 2) * 0x20 + Field(h, 0x400, 4) * 8 + Field(h, 8, 4) * 2, 0x100)
  }

  // ---- Encoders -------------------------------------------------------------

  /** New immediate in a `jal`, keeping `rd` and the opcode. */
  function EncodeJ(w: u32, imm: int): u32 {
    var v := U32(imm);
    Field(v, 0x10_0000, 2) * 0x8000_0000 + Field(v, 2, 0x400) * 0x20_0000 + Field(v, 0x800, 2) * 0x10_0000
    + Field(v, 0x1000, 0x100) * 0x1000 + Field(w, 1, 0x1000)
  }

  /** New immediate in a branch, keeping registers, `funct3` and the opcode. */
  function EncodeB(w: u32, imm: int): u32 {
    var v := U32(imm);
    Field(v, 0x1000, 2) * 0x8000_0000 + Field(v, 0x20, 0x40) * 0x200_0000 + Field(w, 0x1000, 0x2000) * 0x1000
    + Field(v, 2, 0x10) * 0x100 + Field(v, 0x800, 2) * 0x80 + Field(w, 1, 0x80)
  }

  function EncodeCJ(h: half, imm: int): (r: Option<half>)
    ensures r.Some? <==> -0x800 <= imm < 0x800 && imm % 2 == 0
  {
    if !(-0x800 <= imm < 0x800) || imm % 2 != 0 then None
    else
      var v := U32(imm);
      Some(Above(h, 0x2000) * 0x2000 + Field(v, 0x800, 2) * 0x1000 + Field(v, 0x10, 2) * 0x800 + Field(v, 0x100, 4) * 0x200
           + Field(v, 0x400, 2) * 0x100 + Field(v, 0x40, 2) * 0x80 + Field(v, 0x80, 2) * 0x40 + Field(v, 2, 8) * 8 + Field(v, 0x20, 2) * 4 + Field(h, 1, 4))
  }

  function EncodeCB(h: half, imm: int): (r: Option<half>)
    ensures r.Some? <==> -0x100 <= imm < 0x100 && imm % 2 == 0
  {
    if !(-0x100 <= imm < 0x100) || imm % 2 != 0 then None
    else
      var v := U32(imm);
      Some(Above(h, 0x2000) * 0x2000 + Field(v, 0x100, 2) * 0x1000 + Field(v, 8, 4) * 0x400 + Field(h, 0x80, 8) * 0x80
           + Field(v, 0x40, 4) * 0x20 + Field(v, 2, 4) * 8 + Field(v, 0x20, 2) * 4 + Field(h, 1, 4))
  }

  // ---- Fields ---------------------------------------------------------------

  lemma Cut(q: nat, r: nat, k: nat)
    requires r < k
    ensures (q * k + r) / k == q && (q * k + r) % k == r
  {
    var x := q * k + r;
    var d := q - x / k;
    assert d * k == x % k - r;
  }

  lemma Regroup(s: nat, t: nat, u: nat, a: nat, b: nat)
    requires t < b && u < a
    ensures (s * b + t) * a + u == s * (a * b) + (t * a + u) && t * a + u < a * b
  {
    assert t * a <= (b - 1) * a;
  }

  lemma Nested(s: nat, t: nat, u: nat, a: nat, b: nat, x: nat)
    requires t < b && u < a && x == (s * b + t) * a + u
    ensures a * b > 0 && x / (a * b) == s
  {
    Regroup(s, t, u, a, b);
    var k, r := a * b, t * a + u;
    assert k > 0 && x == s * k + r && r < k;
    Cut(s, r, k);
  }

  lemma DivDiv(x: nat, a: nat, b: nat)
    requires a > 0 && b > 0
    ensures a * b > 0 && x / (a * b) == x / a / b
  {
    Nested(x / a / b, x / a % b, x % a, a, b, x);
  }

  /** Reads the next field off a number known from `unit` up. */
  lemma Peel(x: nat, unit: nat, q: nat, r: nat, n: nat, next: nat)
    requires unit > 0 && n > 0 && r < n && next == unit * n && Above(x, unit) == q * n + r
    ensures Above(x, next) == q && Field(x, unit, n) == r
  {
    Cut(q, r, n);
    DivDiv(x, unit, n);
  }

  /** Splits the bits from `unit` up into one field and the rest. */
  lemma Digit(x: nat, unit: nat, n: nat, next: nat)
    requires unit > 0 && n > 0 && next == unit * n
    ensures Above(x, unit) == Above(x, next) * n + Field(x, unit, n)
  {
    DivDiv(x, unit, n);
  }

  lemma Whole(x: nat)
    ensures Above(x, 1) == x
  {
  }

  // ---- Round trips ----------------------------------------------------------

  lemma JFields(a: nat, b: nat, c: nat, d: nat, low: nat, x: nat)
    requires a < 2 && b < 0x400 && c < 2 && d < 0x100 && low < 0x1000
    requires x == a * 0x8000_0000 + b * 0x20_0000 + c * 0x10_0000 + d * 0x1000 + low
    ensures Field(x, 1, 0x1000) == low && Field(x, 0x1000, 0x100) == d && Field(x, 0x10_0000, 2) == c
    ensures Field(x, 0x20_0000, 0x400) == b && Field(x, 0x8000_0000, 2) == a
  {
    hide Field, Above;
    Whole(x);
    Peel(x, 1, ((a * 0x400 + b) * 2 + c) * 0x100 + d, low, 0x1000, 0x1000);
    Peel(x, 0x1000, (a * 0x400 + b) * 2 + c, d, 0x100, 0x10_0000);
    Peel(x, 0x10_0000, a * 0x400 + b, c, 2, 0x20_0000);
    Peel(x, 0x20_0000, a, b, 0x400, 0x8000_0000);
    Peel(x, 0x8000_0000, 0, a, 2, 0x1_0000_0000);
  }

  lemma LowBit(v: nat)
    ensures Field(v, 1, 2) == v % 2
  {
    Whole(v);
  }

  lemma JDigits(v: nat)
    ensures v == Above(v, 0x20_0000) * 0x20_0000 + Field(v, 0x10_0000, 2) * 0x10_0000 + Field(v, 0x1000, 0x100) * 0x1000
                 + Field(v, 0x800, 2) * 0x800 + Field(v, 2, 0x400) * 2 + v % 2
  {
    LowBit(v);
    hide Field, Above;
    Whole(v);
    Digit(v, 1, 2, 2);
    Digit(v, 2, 0x400, 0x800);
    Digit(v, 0x800, 2, 0x1000);
    Digit(v, 0x1000, 0x100, 0x10_0000);
    Digit(v, 0x10_0000, 2, 0x20_0000);
  }

  lemma NoMultiple(d: int, k: int, raw: int, e: int)
    requires 0 <= raw < k && 0 <= e < k && d * k + raw == e
    ensures d == 0
  {
  }

  lemma Distribute(t: int, m: int, k: int)
    ensures (t - m + 1) * k == t * k - k * m + k
  {
  }

  /** The field bits of a 32-bit value that fits the field give it back. */
  lemma SignBack(imm: int, t: nat, raw: nat, top: int, m: nat)
    requires -top <= imm < top && raw < 2 * top && 2 * top * m == 0x1_0000_0000
    requires U32(imm) == t * (2 * top) + raw
    ensures Signed(raw, top) == imm
  {
    var k := 2 * top;
    if imm >= 0 {
      NoMultiple(t, k, raw, imm);
    } else {
      Distribute(t, m, k);
      NoMultiple(t - m + 1, k, raw, imm + k);
    }
  }

  lemma EvenWord(imm: int)
    requires imm % 2 == 0
    ensures U32(imm) % 2 == 0
  {
  }

  /** A `jal` re-encoded with a reachable displacement has that displacement and
      the same `rd` and opcode. */
  lemma JRoundTrip(w: u32, imm: int)
    requires -0x10_0000 <= imm < 0x10_0000 && imm % 2 == 0
    ensures ImmJ(EncodeJ(w, imm)) == imm && Field(EncodeJ(w, imm), 1, 0x1000) == Field(w, 1, 0x1000)
  {
    hide Field, Above;
    var v, x := U32(imm), EncodeJ(w, imm);
    var a, b, c, d := Field(v, 0x10_0000, 2), Field(v, 2, 0x400), Field(v, 0x800, 2), Field(v, 0x1000, 0x100);
    JFields(a, b, c, d, Field(w, 1, 0x1000), x);
    JDigits(v);
    EvenWord(imm);
    hide U32;
    SignBack(imm, Above(v, 0x20_0000), a * 0x10_0000 + d * 0x1000 + c * 0x800 + b * 2, 0x10_0000, 0x800);
  }

  lemma BFields(a: nat, b: nat, mid: nat, c: nat, d: nat, low: nat, x: nat)
    requires a < 2 && b < 0x40 && mid < 0x2000 && c < 0x10 && d < 2 && low < 0x80
    requires x == a * 0x8000_0000 + b * 0x200_0000 + mid * 0x1000 + c * 0x100 + d * 0x80 + low
    ensures Field(x, 1, 0x80) == low && Field(x, 0x80, 2) == d && Field(x, 0x100, 0x10) == c
    ensures Field(x, 0x1000, 0x2000) == mid && Field(x, 0x200_0000, 0x40) == b && Field(x, 0x8000_0000, 2) == a
  {
    hide Field, Above;
    Whole(x);
    Peel(x, 1, (((a * 0x40 + b) * 0x2000 + mid) * 0x10 + c) * 2 + d, low, 0x80, 0x80);
    Peel(x, 0x80, ((a * 0x40 + b) * 0x2000 + mid) * 0x10 + c, d, 2, 0x100);
    Peel(x, 0x100, (a * 0x40 + b) * 0x2000 + mid, c, 0x10, 0x1000);
    Peel(x, 0x1000, a * 0x40 + b, mid, 0x2000, 0x200_0000);
    Peel(x, 0x200_0000, a, b, 0x40, 0x8000_0000);
    Peel(x, 0x8000_0000, 0, a, 2, 0x1_0000_0000);
  }

  lemma BDigits(v: nat)
    ensures v == Above(v, 0x2000) * 0x2000 + Field(v, 0x1000, 2) * 0x1000 + Field(v, 0x800, 2) * 0x800
                 + Field(v, 0x20, 0x40) * 0x20 + Field(v, 2, 0x10) * 2 + v % 2
  {
    LowBit(v);
    hide Field, Above;
    Whole(v);
    Digit(v, 1, 2, 2);
    Digit(v, 2, 0x10, 0x20);
    Digit(v, 0x20, 0x40, 0x800);
    Digit(v, 0x800, 2, 0x1000);
    Digit(v, 0x1000, 2, 0x2000);
  }

  /** A branch re-encoded with a reachable displacement has that displacement and
      the same registers, `funct3` and opcode. */
  lemma BRoundTrip(w: u32, imm: int)
    requires -0x1000 <= imm < 0x1000 && imm % 2 == 0
    ensures ImmB(EncodeB(w, imm)) == imm
    ensures Field(EncodeB(w, imm), 1, 0x80) == Field(w, 1, 0x80)
    ensures Field(EncodeB(w, imm), 0x1000, 0x2000) == Field(w, 0x1000, 0x2000)
  {
    hide Field, Above;
    var v, x := U32(imm), EncodeB(w, imm);
    BFields(Field(v, 0x1000, 2), Field(v, 0x20, 0x40), Field(w, 0x1000, 0x2000), Field(v, 2, 0x10), Field(v, 0x800, 2),
            Field(w, 1, 0x80), x);
    BDigits(v);
    EvenWord(imm);
    hide U32;
    SignBack(imm, Above(v, 0x2000), Field(v, 0x1000, 2) * 0x1000 + Field(v, 0x800, 2) * 0x800 + Field(v, 0x20, 0x40) * 0x20
             + Field(v, 2, 0x10) * 2, 0x1000, 0x8_0000);
  }

  lemma CJFields(f: nat, a: nat, b: nat, c: nat, d: nat, e: nat, g: nat, i: nat, j: nat, low: nat, x: nat)
    requires a < 2 && b < 2 && c < 4 && d < 2 && e < 2 && g < 2 && i < 8 && j < 2 && low < 4
    requires x == f * 0x2000 + a * 0x1000 + b * 0x800 + c * 0x200 + d * 0x100 + e * 0x80 + g * 0x40 + i * 8 + j * 4 + low
    ensures Field(x, 1, 4) == low && Field(x, 4, 2) == j && Field(x, 8, 8) == i && Field(x, 0x40, 2) == g
    ensures Field(x, 0x80, 2) == e && Field(x, 0x100, 2) == d && Field(x, 0x200, 4) == c && Field(x, 0x800, 2) == b
    ensures Field(x, 0x1000, 2) == a && Above(x, 0x2000) == f
  {
    hide Field, Above;
    var x1 := f * 2 + a;
    var x2 := x1 * 2 + b;
    var x3 := x2 * 4 + c;
    var x4 := x3 * 2 + d;
    var x5 := x4 * 2 + e;
    var x6 := x5 * 2 + g;
    var x7 := x6 * 8 + i;
    Whole(x);
    Peel(x, 1, x7 * 2 + j, low, 4, 4);
    Peel(x, 4, x7, j, 2, 8);
    Peel(x, 8, x6, i, 8, 0x40);
    Peel(x, 0x40, x5, g, 2, 0x80);
    Peel(x, 0x80, x4, e, 2, 0x100);
    Peel(x, 0x100, x3, d, 2, 0x200);
    Peel(x, 0x200, x2, c, 4, 0x800);
    Peel(x, 0x800, x1, b, 2, 0x1000);
    Peel(x, 0x1000, f, a, 2, 0x2000);
  }

  lemma CJDigits(v: nat)
    ensures v == Above(v, 0x1000) * 0x1000 + Field(v, 0x800, 2) * 0x800 + Field(v, 0x400, 2) * 0x400
                 + Field(v, 0x100, 4) * 0x100 + Field(v, 0x80, 2) * 0x80 + Field(v, 0x40, 2) * 0x40
                 + Field(v, 0x20, 2) * 0x20 + Field(v, 0x10, 2) * 0x10 + Field(v, 2, 8) * 2 + v % 2
  {
    LowBit(v);
    hide Field, Above;
    Whole(v);
    Digit(v, 1, 2, 2);
    Digit(v, 2, 8, 0x10);
    Digit(v, 0x10, 2, 0x20);
    Digit(v, 0x20, 2, 0x40);
    Digit(v, 0x40, 2, 0x80);
    Digit(v, 0x80, 2, 0x100);
    Digit(v, 0x100, 4, 0x400);
    Digit(v, 0x400, 2, 0x800);
    Digit(v, 0x800, 2, 0x1000);
  }

  /** A `c.j` re-encoded with a reachable displacement has that displacement and
      the same `funct3` and quadrant. */
  lemma CJRoundTrip(h: half, imm: int)
    requires EncodeCJ(h, imm).Some?
    ensures ImmCJ(EncodeCJ(h, imm).value) == imm
    ensures Above(EncodeCJ(h, imm).value, 0x2000) == Above(h, 0x2000)
    ensures Field(EncodeCJ(h, imm).value, 1, 4) == Field(h, 1, 4)
  {
    hide Field, Above;
    var v, x := U32(imm), EncodeCJ(h, imm).value;
    CJFields(Above(h, 0x2000), Field(v, 0x800, 2), Field(v, 0x10, 2), Field(v, 0x100, 4), Field(v, 0x400, 2),
             Field(v, 0x40, 2), Field(v, 0x80, 2), Field(v, 2, 8), Field(v, 0x20, 2), Field(h, 1, 4), x);
    CJDigits(v);
    EvenWord(imm);
    hide U32;
    SignBack(imm, Above(v, 0x1000), Field(v, 0x800, 2) * 0x800 + Field(v, 0x400, 2) * 0x400 + Field(v, 0x100, 4) * 0x100
             + Field(v, 0x80, 2) * 0x80 + Field(v, 0x40, 2) * 0x40 + Field(v, 0x20, 2) * 0x20 + Field(v, 0x10, 2) * 0x10
             + Field(v, 2, 8) * 2, 0x800, 0x10_0000);
  }

  lemma CBFields(f: nat, a: nat, b: nat, r: nat, c: nat, d: nat, e: nat, low: nat, x: nat)
    requires a < 2 && b < 4 && r < 8 && c < 4 && d < 4 && e < 2 && low < 4
    requires x == f * 0x2000 + a * 0x1000 + b * 0x400 + r * 0x80 + c * 0x20 + d * 8 + e * 4 + low
    ensures Field(x, 1, 4) == low && Field(x, 4, 2) == e && Field(x, 8, 4) == d && Field(x, 0x20, 4) == c
    ensures Field(x, 0x80, 8) == r && Field(x, 0x400, 4) == b && Field(x, 0x1000, 2) == a && Above(x, 0x2000) == f
  {
    hide Field, Above;
    var x1 := f * 2 + a;
    var x2 := x1 * 4 + b;
    var x3 := x2 * 8 + r;
    var x4 := x3 * 4 + c;
    var x5 := x4 * 4 + d;
    Whole(x);
    Peel(x, 1, x5 * 2 + e, low, 4, 4);
    Peel(x, 4, x5, e, 2, 8);
    Peel(x, 8, x4, d, 4, 0x20);
    Peel(x, 0x20, x3, c, 4, 0x80);
    Peel(x, 0x80, x2, r, 8, 0x400);
    Peel(x, 0x400, x1, b, 4, 0x1000);
    Peel(x, 0x1000, f, a, 2, 0x2000);
  }

  lemma CBDigits(v: nat)
    ensures v == Above(v, 0x200) * 0x200 + Field(v, 0x100, 2) * 0x100 + Field(v, 0x40, 4) * 0x40 + Field(v, 0x20, 2) * 0x20
                 + Field(v, 8, 4) * 8 + Field(v, 2, 4) * 2 + v % 2
  {
    LowBit(v);
    hide Field, Above;
    Whole(v);
    Digit(v, 1, 2, 2);
    Digit(v, 2, 4, 8);
    Digit(v, 8, 4, 0x20);
    Digit(v, 0x20, 2, 0x40);
    Digit(v, 0x40, 4, 0x100);
    Digit(v, 0x100, 2, 0x200);
  }

  /** A `c.beqz`/`c.bnez` re-encoded with a reachable displacement has that
      displacement and the same `funct3`, register and quadrant. */
  lemma CBRoundTrip(h: half, imm: int)
    requires EncodeCB(h, imm).Some?
    ensures ImmCB(EncodeCB(h, imm).value) == imm
    ensures Above(EncodeCB(h, imm).value, 0x2000) == Above(h, 0x2000)
    ensures Field(EncodeCB(h, imm).value, 0x80, 8) == Field(h, 0x80, 8)
    ensures Field(EncodeCB(h, imm).value, 1, 4) == Field(h, 1, 4)
  {
    hide Field, Above;
    var v, x := U32(imm), EncodeCB(h, imm).value;
    CBFields(Above(h, 0x2000), Field(v, 0x100, 2), Field(v, 8, 4), Field(h, 0x80, 8), Field(v, 0x40, 4), Field(v, 2, 4),
             Field(v, 0x20, 2), Field(h, 1, 4), x);
    CBDigits(v);
    EvenWord(imm);
    hide U32;
    SignBack(imm, Above(v, 0x200), Field(v, 0x100, 2) * 0x100 + Field(v, 0x40, 4) * 0x40 + Field(v, 0x20, 2) * 0x20
             + Field(v, 8, 4) * 8 + Field(v, 2, 4) * 2, 0x100, 0x80_0000);
  }
}
