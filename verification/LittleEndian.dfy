/** Little-endian integers as bytes. */
module LittleEndian {
  import opened Prelude
  import opened Encoding

  /** Number of values of `n` bytes. */
  function Limit(n: nat): nat
    requires n <= 8
  {
    match n
    case 0 => 1
    case 1 => 0x100
    case 2 => 0x1_0000
    case 3 => 0x100_0000
    case 4 => 0x1_0000_0000
    case 5 => 0x100_0000_0000
    case 6 => 0x1_0000_0000_0000
    case 7 => 0x100_0000_0000_0000
    case 8 => 0x1_0000_0000_0000_0000
  }

  function FromLe(b: seq<byte>): (v: nat)
    requires |b| <= 8
    ensures v < Limit(|b|)
  {
    if b == [] then 0
    else
      var low: int := b[0];
      low + 0x100 * FromLe(b[1..])
  }

  function ToLe(v: nat, n: nat): (b: seq<byte>)
    ensures |b| == n
  {
    if n == 0 then [] else [v % 0x100] + ToLe(v / 0x100, n - 1)
  }

  /** Byte `k` is digit `k` of the value, least significant first. */
  lemma {:induction false} LeByte(v: nat, n: nat, k: nat)
    requires k < n && k < 8
    ensures ToLe(v, n)[k] == v / Limit(k) % 0x100
  {
    if k > 0 {
      LeByte(v / 0x100, n - 1, k - 1);
      DivDiv(v, 0x100, Limit(k - 1));
      assert Limit(k) == 0x100 * Limit(k - 1);
    }
  }

  /** Every byte sequence is the bytes of its value. */
  lemma {:induction false} LeInverse(b: seq<byte>)
    requires |b| <= 8
    ensures ToLe(FromLe(b), |b|) == b
  {
    if b != [] {
      LeInverse(b[1..]);
      var low: int := b[0];
      Cut(FromLe(b[1..]), low, 0x100);
      assert b == [b[0]] + b[1..];
    }
  }

  lemma LowByte(v: nat, k: nat)
    requires k > 0
    ensures v % (0x100 * k) == v % 0x100 + 0x100 * (v / 0x100 % k)
  {
    Regroup(v / 0x100 / k, v / 0x100 % k, v % 0x100, 0x100, k);
    Cut(v / 0x100 / k, v / 0x100 % k * 0x100 + v % 0x100, 0x100 * k);
  }

  /** Little-endian bytes give back the low bytes of the value. */
  lemma {:induction false} LeRoundTrip(v: nat, n: nat)
    requires n <= 8
    ensures FromLe(ToLe(v, n)) == v % Limit(n)
  {
    if n > 0 {
      LeRoundTrip(v / 0x100, n - 1);
      assert ToLe(v, n)[1..] == ToLe(v / 0x100, n - 1);
      LowByte(v, Limit(n - 1));
      assert Limit(n) == 0x100 * Limit(n - 1);
    }
  }

  /** Little-endian integers at an offset. */
  function U16At(x: seq<byte>, o: nat): nat
    requires o + 2 <= |x|
  {
    var lo: int, hi: int := x[o], x[o + 1];
    lo + 0x100 * hi
  }

  function U32At(x: seq<byte>, o: nat): nat
    requires o + 4 <= |x|
  {
    U16At(x, o) + 0x1_0000 * U16At(x, o + 2)
  }

  function U64At(x: seq<byte>, o: nat): nat
    requires o + 8 <= |x|
  {
    U32At(x, o) + 0x1_0000_0000 * U32At(x, o + 4)
  }

  lemma Two(v: seq<byte>)
    requires |v| == 2
    ensures FromLe(v) == U16At(v, 0)
  {
    assert v[1..][1..] == [];
  }

  lemma CarryUp(lo: nat, a: nat, l: nat, w: nat)
    ensures lo + 0x100 * (a + l * w) == lo + 0x100 * a + 0x100 * l * w
  {
  }

  lemma {:induction false} Join(v: seq<byte>, w: seq<byte>)
    requires |v| + |w| <= 8
    ensures FromLe(v + w) == FromLe(v) + Limit(|v|) * FromLe(w)
  {
    if v == [] {
      assert v + w == w;
    } else {
      Join(v[1..], w);
      assert (v + w)[1..] == v[1..] + w;
      CarryUp(v[0], FromLe(v[1..]), Limit(|v| - 1), FromLe(w));
      assert 0x100 * Limit(|v| - 1) == Limit(|v|);
      hide Limit;
    }
  }

  lemma ReadsTwo(x: seq<byte>, o: nat)
    requires o + 2 <= |x|
    ensures FromLe(x[o..o + 2]) == U16At(x, o)
  {
    Two(x[o..o + 2]);
  }

  lemma ReadsFour(x: seq<byte>, o: nat)
    requires o + 4 <= |x|
    ensures FromLe(x[o..o + 4]) == U32At(x, o)
  {
    hide FromLe;
    Join(x[o..o + 2], x[o + 2..o + 4]);
    assert x[o..o + 2] + x[o + 2..o + 4] == x[o..o + 4];
    ReadsTwo(x, o);
    ReadsTwo(x, o + 2);
  }

  lemma ReadsEight(x: seq<byte>, o: nat)
    requires o + 8 <= |x|
    ensures FromLe(x[o..o + 8]) == U64At(x, o)
  {
    hide FromLe;
    Join(x[o..o + 4], x[o + 4..o + 8]);
    assert x[o..o + 4] + x[o + 4..o + 8] == x[o..o + 8];
    ReadsFour(x, o);
    ReadsFour(x, o + 4);
  }
}
