/** The program blob and its binary encoding (nub-program `blob.rs`,
    `codec.rs`). */
module Codec {
  import opened Prelude
  import opened LittleEndian

  datatype Regions = Regions(stack: u32, ro: u32, rw: u32, heap: u32)

  datatype Endpoint = Endpoint(entryPc: u64, argRegisters: byte, argMeta: byte, regs: map<byte, u64>)

  datatype Blob = Blob(
    code: seq<byte>, regions: Regions, ro: seq<byte>, rw: seq<byte>, endpoints: map<byte, Endpoint>)

  datatype Invalid = CodeTooLarge | DataOutOfRange | RegionLengthMismatch | NoEndpoints

  datatype Error =
    | BadMagic
    | UnsupportedVersion(v: nat)
    | ReservedFlags(v: nat)
    | Truncated(need: nat, have: nat)
    | DuplicateEndpoint(key: byte)
    | RegionOverflow(len: nat, capacity: nat)
    | TrailingBytes(n: nat)
    | InvalidBlob(why: Invalid)

  // ---- Geometry and validation ----------------------------------------------

  /** Pages over all regions, as the true sum and as the 32-bit sum the source
      computes. */
  function PageSum(r: Regions): nat {
    r.stack + r.ro + r.rw + r.heap
  }

  function TotalPages(r: Regions): u32 {
    PageSum(r) % 0x1_0000_0000
  }

  function DataEnd(r: Regions): nat {
    0x1000_0000 + TotalPages(r) * 4096
  }

  function Validate(b: Blob): Option<Invalid> {
    if |b.code| > MAX_CODE_SIZE then Some(CodeTooLarge)
    else if DataEnd(b.regions) > 0x1_0000_0000 then Some(DataOutOfRange)
    else if |b.ro| != b.regions.ro * 4096 || |b.rw| != b.regions.rw * 4096 then Some(RegionLengthMismatch)
    else if b.endpoints == map[] then Some(NoEndpoints)
    else None
  }

  /** The data really ends inside the 32-bit address space. */
  predicate DataFits(r: Regions) {
    0x1000_0000 + PageSum(r) * 4096 <= 0x1_0000_0000
  }

  /** `validate` bounds the data regions exactly when the page sum does not
      overflow 32 bits. */
  lemma ValidateBounds(b: Blob)
    requires Validate(b).None?
    ensures DataFits(b.regions) <==> PageSum(b.regions) < 0x1_0000_0000
  {
  }

  /** A blob that validates although its stack alone is 16 TiB. */
  lemma ValidateWraps() returns (b: Blob)
    ensures Validate(b).None? && !DataFits(b.regions)
  {
    b := Blob([], Regions(0xFFFF_FFFF, 0, 0, 1), [], [], map[0 := Endpoint(0, 0, 0, map[])]);
    assert 0 in b.endpoints;
  }

  // ---- Encoding -------------------------------------------------------------

  /** Length without trailing zeros. */
  function TrimmedLen(data: seq<byte>): (n: nat)
    ensures n <= |data| && (forall k :: n <= k < |data| ==> data[k] == 0) && (n > 0 ==> data[n - 1] != 0)
  {
    if data == [] then 0
    else if data[|data| - 1] != 0 then |data|
    else TrimmedLen(data[..|data| - 1])
  }

  function EncodeReg(idx: byte, value: u64): (r: seq<byte>)
    ensures |r| == 16
  {
    [idx] + [0, 0, 0, 0, 0, 0, 0] + ToLe(value, 8)
  }

  /** The registers from index `k` on, in index order. */
  function EncodeRegs(m: map<byte, u64>, k: nat): seq<byte>
    requires k <= 256
    decreases 256 - k
  {
    if k == 256 then [] else (if k in m then EncodeReg(k, m[k]) else []) + EncodeRegs(m, k + 1)
  }

  function EncodeEndpoint(key: byte, ep: Endpoint): seq<byte> {
    [key, ep.argRegisters, ep.argMeta, |ep.regs| % 0x100] + ToLe(ep.entryPc, 8) + EncodeRegs(ep.regs, 0)
  }

  /** The endpoints from key `k` on, in key order. */
  function EncodeEndpoints(m: map<byte, Endpoint>, k: nat): seq<byte>
    requires k <= 256
    decreases 256 - k
  {
    if k == 256 then [] else (if k in m then EncodeEndpoint(k, m[k]) else []) + EncodeEndpoints(m, k + 1)
  }

  const MAGIC: seq<byte> := [0x4E, 0x55, 0x42, 0x50]

  function EncodeWords(w: seq<nat>): seq<byte> {
    if w == [] then [] else ToLe(w[0], 4) + EncodeWords(w[1..])
  }

  function SizeWords(b: Blob): seq<nat> {
    [b.regions.stack, b.regions.ro, b.regions.rw, b.regions.heap, |b.code|, TrimmedLen(b.ro), TrimmedLen(b.rw), |b.endpoints|]
  }

  function Header(b: Blob): seq<byte> {
    MAGIC + ToLe(1, 2) + ToLe(0, 2) + EncodeWords(SizeWords(b))
  }

  /** `to_bytes`. */
  function ToBytes(b: Blob): seq<byte> {
    Header(b) + EncodeEndpoints(b.endpoints, 0) + b.code + b.ro[..TrimmedLen(b.ro)] + b.rw[..TrimmedLen(b.rw)]
  }

  // ---- Decoding -------------------------------------------------------------

  datatype Parsed<T> = Ok(value: T, pos: nat) | Fail(error: Error)

  function Take(b: seq<byte>, pos: nat, n: nat): (r: Parsed<seq<byte>>)
    ensures r.Ok? ==> r.pos == pos + n <= |b| && r.value == b[pos..pos + n]
  {
    if pos + n > |b| then Fail(Truncated(pos + n, |b|)) else Ok(b[pos..pos + n], pos + n)
  }

  /** A little-endian integer of `n` bytes. */
  function Int(b: seq<byte>, pos: nat, n: nat): (r: Parsed<nat>)
    requires n <= 8
    ensures r.Ok? ==> r.pos == pos + n <= |b| && r.value < Limit(n)
  {
    match Take(b, pos, n)
    case Fail(e) => Fail(e)
    case Ok(v, p) => Ok(FromLe(v), p)
  }

  datatype RegEntry = RegEntry(idx: byte, value: u64)

  function DecodeReg(b: seq<byte>, pos: nat): (r: Parsed<RegEntry>)
    ensures r.Ok? ==> pos < r.pos <= |b|
  {
    match Int(b, pos, 1)
    case Fail(e) => Fail(e)
    case Ok(idx, p) =>
      match Take(b, p, 7)
      case Fail(e) => Fail(e)
      case Ok(_, q) =>
        match Int(b, q, 8)
        case Fail(e) => Fail(e)
        case Ok(v, t) => Ok(RegEntry(idx, v), t)
  }

  function DecodeRegs(b: seq<byte>, pos: nat, n: nat, acc: map<byte, u64>): (r: Parsed<map<byte, u64>>)
    requires pos <= |b|
    ensures r.Ok? ==> pos <= r.pos <= |b|
    decreases n
  {
    if n == 0 then Ok(acc, pos)
    else
      match DecodeReg(b, pos)
      case Fail(e) => Fail(e)
      case Ok(x, p) => DecodeRegs(b, p, n - 1, acc[x.idx := x.value])
  }

  datatype Keyed = Keyed(key: byte, ep: Endpoint)

  datatype EndpointHead = EndpointHead(key: byte, argRegisters: byte, argMeta: byte, regCount: byte, entryPc: u64)

  /** Four single bytes, then the entry pc; a short input fails on the first
      missing byte. */
  function DecodeHead(b: seq<byte>, pos: nat): (r: Parsed<EndpointHead>)
    ensures r.Ok? ==> pos < r.pos <= |b|
  {
    match Take(b, pos, 4)
    case Fail(_) => Fail(Truncated(Max(|b|, pos) + 1, |b|))
    case Ok(h, p) =>
      match Int(b, p, 8)
      case Fail(e) => Fail(e)
      case Ok(pc, q) => Ok(EndpointHead(h[0], h[1], h[2], h[3], pc), q)
  }

  function DecodeEndpoint(b: seq<byte>, pos: nat): (r: Parsed<Keyed>)
    ensures r.Ok? ==> pos < r.pos <= |b|
  {
    match DecodeHead(b, pos)
    case Fail(e) => Fail(e)
    case Ok(h, p) =>
      match DecodeRegs(b, p, h.regCount, map[])
      case Fail(e) => Fail(e)
      case Ok(regs, q) => Ok(Keyed(h.key, Endpoint(h.entryPc, h.argRegisters, h.argMeta, regs)), q)
  }

  function DecodeEndpoints(b: seq<byte>, pos: nat, n: nat, acc: map<byte, Endpoint>): (r: Parsed<map<byte, Endpoint>>)
    requires pos <= |b|
    ensures r.Ok? ==> pos <= r.pos <= |b|
    decreases n
  {
    if n == 0 then Ok(acc, pos)
    else
      match DecodeEndpoint(b, pos)
      case Fail(e) => Fail(e)
      case Ok(x, p) =>
        if x.key in acc then Fail(DuplicateEndpoint(x.key))
        else DecodeEndpoints(b, p, n - 1, acc[x.key := x.ep])
  }

  /** `read_region`: the payload, zero-extended to whole pages. */
  function DecodeRegion(b: seq<byte>, pos: nat, len: nat, pages: nat): (r: Parsed<seq<byte>>)
    ensures r.Ok? ==> pos <= r.pos <= |b| && |r.value| == pages * 4096
  {
    if len > pages * 4096 then Fail(RegionOverflow(len, pages * 4096))
    else
      match Take(b, pos, len)
      case Fail(e) => Fail(e)
      case Ok(data, p) => Ok(data + Zeros(pages * 4096 - len), p)
  }

  datatype Sizes = Sizes(regions: Regions, code: u32, ro: u32, rw: u32, endpoints: u32)

  /** Eight 32-bit header words. */
  function DecodeWords(b: seq<byte>, pos: nat, n: nat): (r: Parsed<seq<u32>>)
    ensures r.Ok? ==> r.pos == pos + 4 * n && |r.value| == n && (n > 0 ==> r.pos <= |b|)
    decreases n
  {
    if n == 0 then Ok([], pos)
    else
      match Int(b, pos, 4)
      case Fail(e) => Fail(e)
      case Ok(v, p) =>
        match DecodeWords(b, p, n - 1)
        case Fail(e) => Fail(e)
        case Ok(rest, q) => Ok([v] + rest, q)
  }

  function DecodeHeader(b: seq<byte>): (r: Parsed<Sizes>)
    ensures r.Ok? ==> r.pos <= |b|
  {
    match Take(b, 0, 4)
    case Fail(e) => Fail(e)
    case Ok(magic, p) =>
      if magic != MAGIC then Fail(BadMagic)
      else
        match Int(b, p, 2)
        case Fail(e) => Fail(e)
        case Ok(version, q) =>
          if version != 1 then Fail(UnsupportedVersion(version))
          else
            match Int(b, q, 2)
            case Fail(e) => Fail(e)
            case Ok(flags, t) =>
              if flags != 0 then Fail(ReservedFlags(flags))
              else
                match DecodeWords(b, t, 8)
                case Fail(e) => Fail(e)
                case Ok(w, u) => Ok(Sizes(Regions(w[0], w[1], w[2], w[3]), w[4], w[5], w[6], w[7]), u)
  }

  /** Everything up to the end of the blob, not yet validated. */
  function DecodeBody(b: seq<byte>, s: Sizes, pos: nat): (r: Parsed<Blob>)
    requires pos <= |b|
    ensures r.Ok? ==> r.pos <= |b|
  {
    match DecodeEndpoints(b, pos, s.endpoints, map[])
    case Fail(e) => Fail(e)
    case Ok(eps, p) =>
      match Take(b, p, s.code)
      case Fail(e) => Fail(e)
      case Ok(code, q) =>
        match DecodeRegion(b, q, s.ro, s.regions.ro)
        case Fail(e) => Fail(e)
        case Ok(ro, t) =>
          match DecodeRegion(b, t, s.rw, s.regions.rw)
          case Fail(e) => Fail(e)
          case Ok(rw, u) => Ok(Blob(code, s.regions, ro, rw, eps), u)
  }

  datatype Decoded = Good(blob: Blob) | Bad(error: Error)

  /** `from_bytes`. */
  function FromBytes(b: seq<byte>): Decoded {
    match DecodeHeader(b)
    case Fail(e) => Bad(e)
    case Ok(s, p) =>
      match DecodeBody(b, s, p)
      case Fail(e) => Bad(e)
      case Ok(blob, q) =>
        if q != |b| then Bad(TrailingBytes(|b| - q))
        else
          match Validate(blob)
          case Some(why) => Bad(InvalidBlob(why))
          case None => Good(blob)
  }

  // ---- Extensions -----------------------------------------------------------

  /** A parse that succeeds does not look past where it stops. */
  lemma TakeMore(b: seq<byte>, x: seq<byte>, pos: nat, n: nat)
    requires Take(b, pos, n).Ok?
    ensures Take(b + x, pos, n) == Take(b, pos, n)
  {
    assert (b + x)[pos..pos + n] == b[pos..pos + n];
  }

  lemma IntMore(b: seq<byte>, x: seq<byte>, pos: nat, n: nat)
    requires n <= 8 && Int(b, pos, n).Ok?
    ensures Int(b + x, pos, n) == Int(b, pos, n)
  {
    hide Take;
    TakeMore(b, x, pos, n);
  }

  lemma RegMore(b: seq<byte>, x: seq<byte>, pos: nat)
    requires DecodeReg(b, pos).Ok?
    ensures DecodeReg(b + x, pos) == DecodeReg(b, pos)
  {
    hide Take, Int;
    IntMore(b, x, pos, 1);
    TakeMore(b, x, Int(b, pos, 1).pos, 7);
    IntMore(b, x, Take(b, Int(b, pos, 1).pos, 7).pos, 8);
  }

  lemma {:induction false} RegsMore(b: seq<byte>, x: seq<byte>, pos: nat, n: nat, acc: map<byte, u64>)
    requires pos <= |b| && DecodeRegs(b, pos, n, acc).Ok?
    ensures DecodeRegs(b + x, pos, n, acc) == DecodeRegs(b, pos, n, acc)
    decreases n
  {
    hide DecodeReg;
    if n > 0 {
      RegMore(b, x, pos);
      var r := DecodeReg(b, pos);
      RegsMore(b, x, r.pos, n - 1, acc[r.value.idx := r.value.value]);
    }
  }

  lemma HeadMore(b: seq<byte>, x: seq<byte>, pos: nat)
    requires DecodeHead(b, pos).Ok?
    ensures DecodeHead(b + x, pos) == DecodeHead(b, pos)
  {
    hide Take, Int;
    TakeMore(b, x, pos, 4);
    IntMore(b, x, Take(b, pos, 4).pos, 8);
  }

  lemma EndpointMore(b: seq<byte>, x: seq<byte>, pos: nat)
    requires DecodeEndpoint(b, pos).Ok?
    ensures DecodeEndpoint(b + x, pos) == DecodeEndpoint(b, pos)
  {
    hide DecodeHead, DecodeRegs;
    HeadMore(b, x, pos);
    var h := DecodeHead(b, pos);
    RegsMore(b, x, h.pos, h.value.regCount, map[]);
  }

  lemma {:induction false} EndpointsMore(b: seq<byte>, x: seq<byte>, pos: nat, n: nat, acc: map<byte, Endpoint>)
    requires pos <= |b| && DecodeEndpoints(b, pos, n, acc).Ok?
    ensures DecodeEndpoints(b + x, pos, n, acc) == DecodeEndpoints(b, pos, n, acc)
    decreases n
  {
    hide DecodeEndpoint;
    if n > 0 {
      EndpointMore(b, x, pos);
      var r := DecodeEndpoint(b, pos);
      EndpointsMore(b, x, r.pos, n - 1, acc[r.value.key := r.value.ep]);
    }
  }

  lemma RegionMore(b: seq<byte>, x: seq<byte>, pos: nat, len: nat, pages: nat)
    requires DecodeRegion(b, pos, len, pages).Ok?
    ensures DecodeRegion(b + x, pos, len, pages) == DecodeRegion(b, pos, len, pages)
  {
    hide Take;
    TakeMore(b, x, pos, len);
  }

  lemma {:induction false} WordsMore(b: seq<byte>, x: seq<byte>, pos: nat, n: nat)
    requires DecodeWords(b, pos, n).Ok?
    ensures DecodeWords(b + x, pos, n) == DecodeWords(b, pos, n)
    decreases n
  {
    hide Int;
    if n > 0 {
      IntMore(b, x, pos, 4);
      WordsMore(b, x, Int(b, pos, 4).pos, n - 1);
    }
  }

  lemma HeaderMore(b: seq<byte>, x: seq<byte>)
    requires DecodeHeader(b).Ok?
    ensures DecodeHeader(b + x) == DecodeHeader(b)
  {
    hide Take, Int, DecodeWords;
    TakeMore(b, x, 0, 4);
    var p := Take(b, 0, 4).pos;
    IntMore(b, x, p, 2);
    var q := Int(b, p, 2).pos;
    IntMore(b, x, q, 2);
    WordsMore(b, x, Int(b, q, 2).pos, 8);
  }

  lemma BodyMore(b: seq<byte>, x: seq<byte>, s: Sizes, pos: nat)
    requires pos <= |b| && DecodeBody(b, s, pos).Ok?
    ensures DecodeBody(b + x, s, pos) == DecodeBody(b, s, pos)
  {
    hide Take, DecodeEndpoints, DecodeRegion;
    EndpointsMore(b, x, pos, s.endpoints, map[]);
    var p := DecodeEndpoints(b, pos, s.endpoints, map[]).pos;
    TakeMore(b, x, p, s.code);
    var q := Take(b, p, s.code).pos;
    RegionMore(b, x, q, s.ro, s.regions.ro);
    RegionMore(b, x, DecodeRegion(b, q, s.ro, s.regions.ro).pos, s.rw, s.regions.rw);
  }

  /** No proper extension of an accepted input is accepted: the extra bytes are
      reported. */
  lemma NoExtension(b: seq<byte>, x: seq<byte>)
    requires FromBytes(b).Good? && x != []
    ensures FromBytes(b + x) == Bad(TrailingBytes(|x|))
  {
    hide DecodeHeader, DecodeBody, Validate;
    HeaderMore(b, x);
    var h := DecodeHeader(b);
    BodyMore(b, x, h.value, h.pos);
  }

  /** Nor is any proper prefix. */
  lemma NoPrefix(b: seq<byte>, n: nat)
    requires FromBytes(b).Good? && n < |b|
    ensures FromBytes(b[..n]).Bad?
  {
    hide FromBytes;
    assert b[..n] + b[n..] == b;
    if FromBytes(b[..n]).Good? {
      NoExtension(b[..n], b[n..]);
    }
  }

  /** Every accepted input satisfies `validate`. */
  lemma AcceptedIsValid(b: seq<byte>)
    requires FromBytes(b).Good?
    ensures Validate(FromBytes(b).blob).None?
  {
    hide DecodeHeader, DecodeBody, Validate;
  }

  // ---- Round trip -----------------------------------------------------------

  /** `e` stands in `b` at `pos`. */
  predicate Sits(b: seq<byte>, pos: nat, e: seq<byte>) {
    pos + |e| <= |b| && b[pos..pos + |e|] == e
  }

  lemma SitsInside(b: seq<byte>, pos: nat, e: seq<byte>)
    requires Sits(b, pos, e)
    ensures pos + |e| <= |b|
  {
  }

  lemma Split(b: seq<byte>, pos: nat, e: seq<byte>, f: seq<byte>)
    requires Sits(b, pos, e + f)
    ensures Sits(b, pos, e) && Sits(b, pos + |e|, f)
  {
    var ef := b[pos..pos + |e + f|];
    assert b[pos..pos + |e|] == ef[..|e|] == e;
    assert b[pos + |e|..pos + |e| + |f|] == ef[|e|..] == f;
  }

  lemma Small(v: nat, n: nat)
    requires v < n
    ensures v % n == v
  {
  }

  lemma IntTrip(b: seq<byte>, pos: nat, v: nat, n: nat)
    requires n <= 8 && v < Limit(n) && Sits(b, pos, ToLe(v, n))
    ensures Int(b, pos, n) == Ok(v, pos + n)
  {
    hide FromLe, ToLe, Limit;
    LeRoundTrip(v, n);
    Small(v, Limit(n));
  }

  lemma ByteLe(v: byte)
    ensures ToLe(v, 1) == [v]
  {
  }

  lemma RegTrip(b: seq<byte>, pos: nat, idx: byte, v: u64)
    requires Sits(b, pos, EncodeReg(idx, v))
    ensures DecodeReg(b, pos) == Ok(RegEntry(idx, v), pos + 16)
  {
    hide Int, ToLe;
    var pad: seq<byte> := [0, 0, 0, 0, 0, 0, 0];
    Split(b, pos, [idx] + pad, ToLe(v, 8));
    Split(b, pos, [idx], pad);
    ByteLe(idx);
    IntTrip(b, pos, idx, 1);
    IntTrip(b, pos + 8, v, 8);
  }

  /** Entries with key `k` or above. */
  function Count<T>(m: map<byte, T>, k: nat): nat
    requires k <= 256
    decreases 256 - k
  {
    if k == 256 then 0 else (if k in m then 1 else 0) + Count(m, k + 1)
  }

  lemma {:induction false} CountKeys<T>(m: map<byte, T>, k: nat)
    requires k <= 256
    ensures Count(m, k) == |set x: byte | x in m && x >= k|
    decreases 256 - k
  {
    var keys := set x: byte | x in m && x >= k;
    if k == 256 {
      assert keys == {};
    } else {
      CountKeys(m, k + 1);
      var above := set x: byte | x in m && x >= k + 1;
      if k in m {
        assert keys == above + {k};
      } else {
        assert keys == above;
      }
    }
  }

  lemma CountAll<T>(m: map<byte, T>)
    ensures Count(m, 0) == |m|
  {
    CountKeys(m, 0);
    assert (set x: byte | x in m && x >= 0) == m.Keys;
  }

  /** `acc` holds the entries of `m` below `k`. */
  predicate Upto<T(==)>(acc: map<byte, T>, m: map<byte, T>, k: nat) {
    (forall x: byte :: x in acc <==> x in m && x < k) && (forall x <- acc :: acc[x] == m[x])
  }

  lemma UptoNext<T>(acc: map<byte, T>, m: map<byte, T>, k: byte)
    requires Upto(acc, m, k)
    ensures k !in acc
    ensures if k in m then Upto(acc[k := m[k]], m, k + 1) else Upto(acc, m, k + 1)
  {
  }

  lemma UptoAll<T>(acc: map<byte, T>, m: map<byte, T>)
    requires Upto(acc, m, 256)
    ensures acc == m
  {
  }

  lemma {:induction false} RegsTrip(b: seq<byte>, pos: nat, m: map<byte, u64>, k: nat, acc: map<byte, u64>)
    requires k <= 256 && Sits(b, pos, EncodeRegs(m, k)) && Upto(acc, m, k)
    ensures DecodeRegs(b, pos, Count(m, k), acc) == Ok(m, pos + |EncodeRegs(m, k)|)
    decreases 256 - k
  {
    hide DecodeReg, EncodeReg, Upto, Sits;
    if k == 256 {
      UptoAll(acc, m);
      SitsInside(b, pos, EncodeRegs(m, k));
    } else if k in m {
      UptoNext(acc, m, k);
      Split(b, pos, EncodeReg(k, m[k]), EncodeRegs(m, k + 1));
      RegTrip(b, pos, k, m[k]);
      RegsTrip(b, pos + 16, m, k + 1, acc[k := m[k]]);
    } else {
      UptoNext(acc, m, k);
      assert EncodeRegs(m, k) == EncodeRegs(m, k + 1);
      RegsTrip(b, pos, m, k + 1, acc);
    }
  }

  /** Head of an endpoint record; the count is one byte. */
  lemma HeadTrip(b: seq<byte>, pos: nat, key: byte, ep: Endpoint)
    requires Sits(b, pos, EncodeEndpoint(key, ep))
    ensures DecodeHead(b, pos) == Ok(EndpointHead(key, ep.argRegisters, ep.argMeta, |ep.regs| % 0x100, ep.entryPc), pos + 12)
    ensures Sits(b, pos + 12, EncodeRegs(ep.regs, 0))
  {
    hide Int, ToLe, EncodeRegs;
    var four: seq<byte> := [key, ep.argRegisters, ep.argMeta, |ep.regs| % 0x100];
    Split(b, pos, four + ToLe(ep.entryPc, 8), EncodeRegs(ep.regs, 0));
    Split(b, pos, four, ToLe(ep.entryPc, 8));
    IntTrip(b, pos + 4, ep.entryPc, 8);
  }

  lemma EndpointTrip(b: seq<byte>, pos: nat, key: byte, ep: Endpoint)
    requires |ep.regs| <= 255 && Sits(b, pos, EncodeEndpoint(key, ep))
    ensures DecodeEndpoint(b, pos) == Ok(Keyed(key, ep), pos + |EncodeEndpoint(key, ep)|)
  {
    hide DecodeHead, EncodeRegs, ToLe, Sits, Count, DecodeRegs;
    HeadTrip(b, pos, key, ep);
    CountAll(ep.regs);
    Small(|ep.regs|, 0x100);
    RegsTrip(b, pos + 12, ep.regs, 0, map[]);
  }

  lemma {:induction false} EndpointsTrip(b: seq<byte>, pos: nat, m: map<byte, Endpoint>, k: nat, acc: map<byte, Endpoint>)
    requires k <= 256 && Sits(b, pos, EncodeEndpoints(m, k)) && Upto(acc, m, k)
    requires forall x <- m :: |m[x].regs| <= 255
    ensures DecodeEndpoints(b, pos, Count(m, k), acc) == Ok(m, pos + |EncodeEndpoints(m, k)|)
    decreases 256 - k
  {
    hide DecodeEndpoint, EncodeEndpoint, Upto, Sits;
    if k == 256 {
      UptoAll(acc, m);
      SitsInside(b, pos, EncodeEndpoints(m, k));
    } else if k in m {
      UptoNext(acc, m, k);
      Split(b, pos, EncodeEndpoint(k, m[k]), EncodeEndpoints(m, k + 1));
      EndpointTrip(b, pos, k, m[k]);
      EndpointsTrip(b, pos + |EncodeEndpoint(k, m[k])|, m, k + 1, acc[k := m[k]]);
    } else {
      UptoNext(acc, m, k);
      assert EncodeEndpoints(m, k) == EncodeEndpoints(m, k + 1);
      EndpointsTrip(b, pos, m, k + 1, acc);
    }
  }

  lemma ZerosBack(data: seq<byte>, n: nat, z: seq<byte>)
    requires n + |z| == |data|
    requires (forall k :: n <= k < |data| ==> data[k] == 0) && (forall k :: 0 <= k < |z| ==> z[k] == 0)
    ensures data[..n] + z == data
  {
  }

  lemma Refill(data: seq<byte>)
    ensures data[..TrimmedLen(data)] + Zeros(|data| - TrimmedLen(data)) == data
  {
    hide TrimmedLen, Zeros;
    ZerosBack(data, TrimmedLen(data), Zeros(|data| - TrimmedLen(data)));
  }

  lemma TakeTrip(b: seq<byte>, pos: nat, e: seq<byte>)
    requires Sits(b, pos, e)
    ensures Take(b, pos, |e|) == Ok(e, pos + |e|)
  {
  }

  /** Trimming then zero-extending gives the region back. */
  lemma RegionTrip(b: seq<byte>, pos: nat, data: seq<byte>, pages: nat)
    requires |data| == pages * 4096 && Sits(b, pos, data[..TrimmedLen(data)])
    ensures DecodeRegion(b, pos, TrimmedLen(data), pages) == Ok(data, pos + TrimmedLen(data))
  {
    hide TrimmedLen, Zeros, Sits, Take;
    Refill(data);
    TakeTrip(b, pos, data[..TrimmedLen(data)]);
  }

  lemma {:induction false} WordsTrip(b: seq<byte>, pos: nat, w: seq<nat>)
    requires Sits(b, pos, EncodeWords(w)) && forall k :: 0 <= k < |w| ==> w[k] < 0x1_0000_0000
    ensures |EncodeWords(w)| == 4 * |w|
    ensures DecodeWords(b, pos, |w|) == Ok(w, pos + 4 * |w|)
    decreases |w|
  {
    hide Sits, Int, ToLe;
    if w != [] {
      Split(b, pos, ToLe(w[0], 4), EncodeWords(w[1..]));
      IntTrip(b, pos, w[0], 4);
      WordsTrip(b, pos + 4, w[1..]);
      assert [w[0]] + w[1..] == w;
    }
  }

  /** What the header's 32-bit lengths can hold. */
  predicate LengthsFit(b: Blob) {
    |b.code| < 0x1_0000_0000 && TrimmedLen(b.ro) < 0x1_0000_0000 && TrimmedLen(b.rw) < 0x1_0000_0000
  }

  function SizesOf(b: Blob): Sizes
    requires LengthsFit(b) && |b.endpoints| < 0x1_0000_0000
  {
    Sizes(b.regions, |b.code|, TrimmedLen(b.ro), TrimmedLen(b.rw), |b.endpoints|)
  }

  lemma {:induction false} CountBound<T>(m: map<byte, T>, k: nat)
    requires k <= 256
    ensures Count(m, k) <= 256 - k
    decreases 256 - k
  {
    if k < 256 {
      CountBound(m, k + 1);
    }
  }

  lemma FewEndpoints(b: Blob)
    ensures |b.endpoints| <= 256
  {
    CountAll(b.endpoints);
    CountBound(b.endpoints, 0);
  }

  lemma MagicTrip(buf: seq<byte>)
    requires Sits(buf, 0, MAGIC)
    ensures Take(buf, 0, 4) == Ok(MAGIC, 4)
  {
  }

  lemma HeaderTrip(buf: seq<byte>, b: Blob)
    requires Sits(buf, 0, Header(b)) && LengthsFit(b) && |b.endpoints| < 0x1_0000_0000
    ensures |Header(b)| == 40 && DecodeHeader(buf) == Ok(SizesOf(b), 40)
  {
    hide Sits, Int, ToLe, DecodeWords, EncodeWords, TrimmedLen;
    var w := SizeWords(b);
    Split(buf, 0, MAGIC + ToLe(1, 2) + ToLe(0, 2), EncodeWords(w));
    Split(buf, 0, MAGIC + ToLe(1, 2), ToLe(0, 2));
    Split(buf, 0, MAGIC, ToLe(1, 2));
    MagicTrip(buf);
    IntTrip(buf, 4, 1, 2);
    IntTrip(buf, 6, 0, 2);
    WordsTrip(buf, 8, w);
  }

  lemma WholeSits(e: seq<byte>)
    ensures Sits(e, 0, e)
  {
    assert e[0..|e|] == e;
  }

  lemma FiveParts(e: seq<byte>, h: seq<byte>, eps: seq<byte>, code: seq<byte>, ro: seq<byte>, rw: seq<byte>)
    requires e == h + eps + code + ro + rw
    ensures Sits(e, 0, h) && Sits(e, |h|, eps) && Sits(e, |h| + |eps|, code)
    ensures Sits(e, |h| + |eps| + |code|, ro) && Sits(e, |h| + |eps| + |code| + |ro|, rw)
  {
    hide Sits;
    WholeSits(e);
    Split(e, 0, h + eps + code + ro, rw);
    Split(e, 0, h + eps + code, ro);
    Split(e, 0, h + eps, code);
    Split(e, 0, h, eps);
  }

  /** Where the parts of an encoding stand. */
  lemma Parts(b: Blob)
    ensures
      var e, eps, ro, rw := ToBytes(b), EncodeEndpoints(b.endpoints, 0), b.ro[..TrimmedLen(b.ro)], b.rw[..TrimmedLen(b.rw)];
      var p := |Header(b)|;
      && Sits(e, 0, Header(b)) && Sits(e, p, eps) && Sits(e, p + |eps|, b.code)
      && Sits(e, p + |eps| + |b.code|, ro) && Sits(e, p + |eps| + |b.code| + |ro|, rw)
      && |e| == p + |eps| + |b.code| + |ro| + |rw|
  {
    hide Header, EncodeEndpoints, TrimmedLen, Sits;
    FiveParts(ToBytes(b), Header(b), EncodeEndpoints(b.endpoints, 0), b.code, b.ro[..TrimmedLen(b.ro)], b.rw[..TrimmedLen(b.rw)]);
  }

  lemma Assemble(e: seq<byte>, s: Sizes, pos: nat, b: Blob, p: nat, q: nat, t: nat)
    requires pos <= |e| && DecodeEndpoints(e, pos, s.endpoints, map[]) == Ok(b.endpoints, p)
    requires Take(e, p, s.code) == Ok(b.code, q) && DecodeRegion(e, q, s.ro, s.regions.ro) == Ok(b.ro, t)
    requires DecodeRegion(e, t, s.rw, s.regions.rw).Ok? && DecodeRegion(e, t, s.rw, s.regions.rw).value == b.rw
    requires s.regions == b.regions
    ensures DecodeBody(e, s, pos) == Ok(b, DecodeRegion(e, t, s.rw, s.regions.rw).pos)
  {
    hide DecodeEndpoints, Take, DecodeRegion;
  }

  lemma BodyTrip(b: Blob)
    requires LengthsFit(b) && |b.endpoints| < 0x1_0000_0000 && forall x <- b.endpoints :: |b.endpoints[x].regs| <= 255
    requires |b.ro| == b.regions.ro * 4096 && |b.rw| == b.regions.rw * 4096
    ensures 40 <= |ToBytes(b)| && DecodeBody(ToBytes(b), SizesOf(b), 40) == Ok(b, |ToBytes(b)|)
  {
    hide Header, EncodeEndpoints, TrimmedLen, Sits, ToBytes, DecodeEndpoints, DecodeRegion, Take, DecodeHeader, Count,
         SizeWords, DecodeBody;
    var e, eps := ToBytes(b), EncodeEndpoints(b.endpoints, 0);
    Parts(b);
    HeaderTrip(e, b);
    CountAll(b.endpoints);
    EndpointsTrip(e, 40, b.endpoints, 0, map[]);
    var p := 40 + |eps|;
    TakeTrip(e, p, b.code);
    var q := p + |b.code|;
    RegionTrip(e, q, b.ro, b.regions.ro);
    var t := q + TrimmedLen(b.ro);
    RegionTrip(e, t, b.rw, b.regions.rw);
    Assemble(e, SizesOf(b), 40, b, p, q, t);
  }

  lemma ValidLengths(b: Blob)
    requires Validate(b).None?
    ensures |b.ro| == b.regions.ro * 4096 && |b.rw| == b.regions.rw * 4096 && |b.code| < 0x1_0000_0000
  {
  }

  /** Decoding the encoding of a valid blob gives it back, as long as no endpoint
      has more registers than its one-byte count can say. */
  lemma RoundTrip(b: Blob)
    requires Validate(b).None? && LengthsFit(b) && forall x <- b.endpoints :: |b.endpoints[x].regs| <= 255
    ensures FromBytes(ToBytes(b)) == Good(b)
  {
    hide Header, ToBytes, DecodeHeader, DecodeBody, Validate, LengthsFit, Sits;
    FewEndpoints(b);
    Parts(b);
    HeaderTrip(ToBytes(b), b);
    ValidLengths(b);
    BodyTrip(b);
  }

  // ---- Accepted inputs ------------------------------------------------------

  lemma {:induction false} FewRegs(b: seq<byte>, pos: nat, n: nat, acc: map<byte, u64>)
    requires pos <= |b| && DecodeRegs(b, pos, n, acc).Ok?
    ensures |DecodeRegs(b, pos, n, acc).value| <= |acc| + n
    decreases n
  {
    hide DecodeReg;
    if n > 0 {
      var r := DecodeReg(b, pos);
      var acc' := acc[r.value.idx := r.value.value];
      assert acc'.Keys == acc.Keys + {r.value.idx};
      assert |acc'| <= |acc| + 1;
      FewRegs(b, r.pos, n - 1, acc');
    }
  }

  lemma EndpointRegs(b: seq<byte>, pos: nat)
    requires DecodeEndpoint(b, pos).Ok?
    ensures |DecodeEndpoint(b, pos).value.ep.regs| <= 255
  {
    hide DecodeHead, DecodeRegs;
    var h := DecodeHead(b, pos);
    FewRegs(b, h.pos, h.value.regCount, map[]);
  }

  lemma {:induction false} EndpointsRegs(b: seq<byte>, pos: nat, n: nat, acc: map<byte, Endpoint>)
    requires pos <= |b| && DecodeEndpoints(b, pos, n, acc).Ok? && forall k <- acc :: |acc[k].regs| <= 255
    ensures forall k <- DecodeEndpoints(b, pos, n, acc).value :: |DecodeEndpoints(b, pos, n, acc).value[k].regs| <= 255
    decreases n
  {
    hide DecodeEndpoint;
    if n > 0 {
      EndpointRegs(b, pos);
      var r := DecodeEndpoint(b, pos);
      EndpointsRegs(b, r.pos, n - 1, acc[r.value.key := r.value.ep]);
    }
  }

  /** A region never trims to more than it was read from. */
  lemma RegionTrims(b: seq<byte>, pos: nat, len: nat, pages: nat)
    requires DecodeRegion(b, pos, len, pages).Ok?
    ensures TrimmedLen(DecodeRegion(b, pos, len, pages).value) <= len
  {
    hide TrimmedLen;
    var data := DecodeRegion(b, pos, len, pages).value;
    var n := TrimmedLen(data);
    assert len < |data| ==> forall k :: len <= k < |data| ==> data[k] == 0;
  }

  lemma BodyFits(b: seq<byte>, s: Sizes, pos: nat)
    requires pos <= |b| && DecodeBody(b, s, pos).Ok?
    ensures
      var blob := DecodeBody(b, s, pos).value;
      LengthsFit(blob) && forall k <- blob.endpoints :: |blob.endpoints[k].regs| <= 255
  {
    hide DecodeEndpoints, Take, DecodeRegion, TrimmedLen;
    EndpointsRegs(b, pos, s.endpoints, map[]);
    var p := DecodeEndpoints(b, pos, s.endpoints, map[]).pos;
    var q := Take(b, p, s.code).pos;
    RegionTrims(b, q, s.ro, s.regions.ro);
    RegionTrims(b, DecodeRegion(b, q, s.ro, s.regions.ro).pos, s.rw, s.regions.rw);
  }

  /** The codec round-trips exactly the valid blobs whose lengths fit their 32-bit
      fields and whose endpoints have at most 255 initial registers each. */
  lemma RoundTripExactly(b: Blob)
    ensures FromBytes(ToBytes(b)) == Good(b)
      <==> Validate(b).None? && LengthsFit(b) && forall x <- b.endpoints :: |b.endpoints[x].regs| <= 255
  {
    hide ToBytes, Validate, LengthsFit, DecodeHeader, DecodeBody;
    var x := ToBytes(b);
    if FromBytes(x) == Good(b) {
      BodyFits(x, DecodeHeader(x).value, DecodeHeader(x).pos);
    } else if Validate(b).None? && LengthsFit(b) && forall x <- b.endpoints :: |b.endpoints[x].regs| <= 255 {
      RoundTrip(b);
    }
  }

  /** Of these, the lengths of a valid blob fit unless its page sum wraps. */
  lemma LengthsFitUnlessWrapped(b: Blob)
    requires Validate(b).None? && PageSum(b.regions) < 0x1_0000_0000
    ensures LengthsFit(b)
  {
    hide TrimmedLen;
    ValidateBounds(b);
  }

  function ZeroRegs(n: nat): (m: map<byte, u64>)
    requires n <= 256
    ensures forall x: byte :: x in m <==> x < n
    ensures |m| == n
  {
    if n == 0 then map[] else ZeroRegs(n - 1)[n - 1 := 0]
  }

  /** A valid blob that does not survive: one endpoint that sets all 256 register
      indices. */
  lemma RoundTripBroken() returns (b: Blob)
    ensures Validate(b).None? && LengthsFit(b) && FromBytes(ToBytes(b)) != Good(b)
  {
    hide FromBytes, ToBytes, ZeroRegs;
    b := Blob([], Regions(0, 0, 0, 0), [], [], map[0 := Endpoint(0, 0, 0, ZeroRegs(256))]);
    assert 0 in b.endpoints;
    RoundTripExactly(b);
  }

  /** Whatever is accepted, re-encoding it is accepted as the same blob. */
  lemma AcceptedReencodes(x: seq<byte>)
    requires FromBytes(x).Good?
    ensures FromBytes(ToBytes(FromBytes(x).blob)) == FromBytes(x)
  {
    hide DecodeHeader, DecodeBody, Validate, LengthsFit, ToBytes;
    var h := DecodeHeader(x);
    BodyFits(x, h.value, h.pos);
    RoundTrip(FromBytes(x).blob);
  }

  // ---- In place -------------------------------------------------------------

  /** Cursor over the input. */
  class Reader {
    const buf: seq<byte>
    var pos: nat

    ghost predicate Ok()
      reads this
    {
      pos <= |buf|
    }

    constructor (b: seq<byte>)
      ensures Ok() && buf == b && pos == 0
    {
      buf, pos := b, 0;
    }

    method TakeBytes(n: nat) returns (r: Parsed<seq<byte>>)
      requires Ok()
      modifies this
      ensures Ok() && r == Take(buf, old(pos), n) && pos == if r.Ok? then r.pos else old(pos)
    {
      var end := pos + n;
      if end > |buf| {
        return Fail(Truncated(end, |buf|));
      }
      r := Parsed.Ok(buf[pos..end], end);
      pos := end;
    }

    method ReadInt(n: nat) returns (r: Parsed<nat>)
      requires Ok() && n <= 8
      modifies this
      ensures Ok() && r == Int(buf, old(pos), n) && pos == if r.Ok? then r.pos else old(pos)
    {
      var v := TakeBytes(n);
      match v
      case Fail(e) => r := Fail(e);
      case Ok(b, p) => r := Parsed.Ok(FromLe(b), p);
    }

    method ReadRegs(count: nat) returns (r: Parsed<map<byte, u64>>)
      requires Ok()
      modifies this
      ensures Ok() && r == DecodeRegs(buf, old(pos), count, map[]) && (r.Ok? ==> pos == r.pos)
    {
      hide Take, Int;
      var regs: map<byte, u64> := map[];
      var i := 0;
      while i < count
        invariant 0 <= i <= count && Ok()
        invariant DecodeRegs(buf, pos, count - i, regs) == DecodeRegs(buf, old(pos), count, map[])
      {
        var idx := ReadInt(1);
        if idx.Fail? {
          return Fail(idx.error);
        }
        var pad := TakeBytes(7);
        if pad.Fail? {
          return Fail(pad.error);
        }
        var v := ReadInt(8);
        if v.Fail? {
          return Fail(v.error);
        }
        regs := regs[idx.value := v.value];
        i := i + 1;
      }
      r := Parsed.Ok(regs, pos);
    }

    method ReadHead() returns (r: Parsed<EndpointHead>)
      requires Ok()
      modifies this
      ensures Ok() && r == DecodeHead(buf, old(pos)) && (r.Ok? ==> pos == r.pos)
    {
      var bytes: seq<byte> := [];
      var i := 0;
      while i < 4
        invariant 0 <= i <= 4 && Ok() && pos == old(pos) + i && bytes == buf[old(pos)..pos]
      {
        var b := TakeBytes(1);
        if b.Fail? {
          return Fail(b.error);
        }
        bytes := bytes + b.value;
        i := i + 1;
      }
      var pc := ReadInt(8);
      if pc.Fail? {
        return Fail(pc.error);
      }
      r := Parsed.Ok(EndpointHead(bytes[0], bytes[1], bytes[2], bytes[3], pc.value), pos);
    }

    method ReadEndpoint() returns (r: Parsed<Keyed>)
      requires Ok()
      modifies this
      ensures Ok() && r == DecodeEndpoint(buf, old(pos)) && (r.Ok? ==> pos == r.pos)
    {
      hide Take, Int, DecodeRegs;
      var head := ReadHead();
      match head
      case Fail(e) => r := Fail(e);
      case Ok(h, _) =>
        var regs := ReadRegs(h.regCount);
        match regs
        case Fail(e) => r := Fail(e);
        case Ok(m, p) => r := Parsed.Ok(Keyed(h.key, Endpoint(h.entryPc, h.argRegisters, h.argMeta, m)), p);
    }

    method ReadEndpoints(count: nat) returns (r: Parsed<map<byte, Endpoint>>)
      requires Ok()
      modifies this
      ensures Ok() && r == DecodeEndpoints(buf, old(pos), count, map[]) && (r.Ok? ==> pos == r.pos)
    {
      hide DecodeEndpoint;
      var endpoints: map<byte, Endpoint> := map[];
      var i := 0;
      while i < count
        invariant 0 <= i <= count && Ok()
        invariant DecodeEndpoints(buf, pos, count - i, endpoints) == DecodeEndpoints(buf, old(pos), count, map[])
      {
        var x := ReadEndpoint();
        if x.Fail? {
          return Fail(x.error);
        }
        if x.value.key in endpoints {
          return Fail(DuplicateEndpoint(x.value.key));
        }
        endpoints := endpoints[x.value.key := x.value.ep];
        i := i + 1;
      }
      r := Parsed.Ok(endpoints, pos);
    }
  }

  method ReadWords(r: Reader, n: nat) returns (w: Parsed<seq<u32>>)
    requires r.Ok()
    modifies r
    ensures r.Ok() && w == DecodeWords(r.buf, old(r.pos), n) && (w.Ok? ==> r.pos == w.pos)
    decreases n
  {
    hide Int;
    if n == 0 {
      return Parsed.Ok([], r.pos);
    }
    var v := r.ReadInt(4);
    if v.Fail? {
      return Fail(v.error);
    }
    var rest := ReadWords(r, n - 1);
    if rest.Fail? {
      return Fail(rest.error);
    }
    w := Parsed.Ok([v.value] + rest.value, r.pos);
  }

  method ReadHeader(r: Reader) returns (s: Parsed<Sizes>)
    requires r.Ok() && r.pos == 0
    modifies r
    ensures r.Ok() && s == DecodeHeader(r.buf) && (s.Ok? ==> r.pos == s.pos)
  {
    hide Take, Int, DecodeWords;
    var magic := r.TakeBytes(4);
    if magic.Fail? {
      return Fail(magic.error);
    }
    if magic.value != MAGIC {
      return Fail(BadMagic);
    }
    var version := r.ReadInt(2);
    if version.Fail? {
      return Fail(version.error);
    }
    if version.value != 1 {
      return Fail(UnsupportedVersion(version.value));
    }
    var flags := r.ReadInt(2);
    if flags.Fail? {
      return Fail(flags.error);
    }
    if flags.value != 0 {
      return Fail(ReservedFlags(flags.value));
    }
    var words := ReadWords(r, 8);
    if words.Fail? {
      return Fail(words.error);
    }
    var w := words.value;
    s := Parsed.Ok(Sizes(Regions(w[0], w[1], w[2], w[3]), w[4], w[5], w[6], w[7]), r.pos);
  }

  method ReadRegion(r: Reader, len: nat, pages: nat) returns (data: Parsed<seq<byte>>)
    requires r.Ok()
    modifies r
    ensures r.Ok() && data == DecodeRegion(r.buf, old(r.pos), len, pages) && (data.Ok? ==> r.pos == data.pos)
  {
    var capacity := pages * 4096;
    if len > capacity {
      return Fail(RegionOverflow(len, capacity));
    }
    var payload := r.TakeBytes(len);
    if payload.Fail? {
      return Fail(payload.error);
    }
    data := Parsed.Ok(payload.value + Zeros(capacity - len), r.pos);
  }

  method ReadBody(r: Reader, s: Sizes) returns (blob: Parsed<Blob>)
    requires r.Ok()
    modifies r
    ensures r.Ok() && blob == DecodeBody(r.buf, s, old(r.pos)) && (blob.Ok? ==> r.pos == blob.pos)
  {
    hide Take, DecodeEndpoints, DecodeRegion;
    var endpoints := r.ReadEndpoints(s.endpoints);
    if endpoints.Fail? {
      return Fail(endpoints.error);
    }
    var code := r.TakeBytes(s.code);
    if code.Fail? {
      return Fail(code.error);
    }
    var ro := ReadRegion(r, s.ro, s.regions.ro);
    if ro.Fail? {
      return Fail(ro.error);
    }
    var rw := ReadRegion(r, s.rw, s.regions.rw);
    if rw.Fail? {
      return Fail(rw.error);
    }
    blob := Parsed.Ok(Blob(code.value, s.regions, ro.value, rw.value, endpoints.value), r.pos);
  }

  /** `from_bytes` with its cursor. */
  method Decode(b: seq<byte>) returns (d: Decoded)
    ensures d == FromBytes(b)
  {
    hide DecodeHeader, DecodeBody, Validate;
    var r := new Reader(b);
    var s := ReadHeader(r);
    if s.Fail? {
      return Bad(s.error);
    }
    var blob := ReadBody(r, s.value);
    if blob.Fail? {
      return Bad(blob.error);
    }
    if r.pos != |b| {
      return Bad(TrailingBytes(|b| - r.pos));
    }
    var why := Validate(blob.value);
    d := if why.Some? then Bad(InvalidBlob(why.value)) else Good(blob.value);
  }

  method AppendRegs(m: map<byte, u64>, first: nat) returns (out: seq<byte>)
    requires first <= 256
    ensures out == EncodeRegs(m, first)
  {
    hide EncodeReg;
    out := [];
    var k := first;
    while k < 256
      invariant k <= 256 && out + EncodeRegs(m, k) == EncodeRegs(m, first)
    {
      if k in m {
        out := out + EncodeReg(k, m[k]);
      }
      k := k + 1;
    }
  }

  method AppendEndpoint(key: byte, ep: Endpoint) returns (out: seq<byte>)
    ensures out == EncodeEndpoint(key, ep)
  {
    hide EncodeRegs, ToLe;
    out := [key, ep.argRegisters, ep.argMeta, |ep.regs| % 0x100];
    out := out + ToLe(ep.entryPc, 8);
    var regs := AppendRegs(ep.regs, 0);
    out := out + regs;
  }

  method AppendEndpoints(m: map<byte, Endpoint>, first: nat) returns (out: seq<byte>)
    requires first <= 256
    ensures out == EncodeEndpoints(m, first)
  {
    hide EncodeEndpoint;
    out := [];
    var k := first;
    while k < 256
      invariant k <= 256 && out + EncodeEndpoints(m, k) == EncodeEndpoints(m, first)
    {
      if k in m {
        var e := AppendEndpoint(k, m[k]);
        out := out + e;
      }
      k := k + 1;
    }
  }

  /** `to_bytes`, appending part by part. */
  method Encode(b: Blob) returns (out: seq<byte>)
    ensures out == ToBytes(b)
  {
    hide TrimmedLen, EncodeEndpoints, Header;
    out := Header(b);
    var endpoints := AppendEndpoints(b.endpoints, 0);
    out := out + endpoints;
    out := out + b.code;
    out := out + b.ro[..TrimmedLen(b.ro)];
    out := out + b.rw[..TrimmedLen(b.rw)];
  }
}