/** The blob decoder against the documented layout (nub-program `codec.rs`), byte by
    byte: what an input means is read off at fixed offsets. */
module WireFormat {
  import opened Prelude
  import opened LittleEndian
  import opened Codec

  // ---- The header -----------------------------------------------------------

  const NUBP: seq<byte> := [0x4E, 0x55, 0x42, 0x50]

  lemma {:induction false} WordsFormat(x: seq<byte>, pos: nat, n: nat)
    requires pos <= |x|
    ensures DecodeWords(x, pos, n).Ok? <==> pos + 4 * n <= |x|
    ensures pos + 4 * n <= |x| ==> forall k :: 0 <= k < n ==> DecodeWords(x, pos, n).value[k] == U32At(x, pos + 4 * k)
    ensures pos + 4 * n > |x| ==> DecodeWords(x, pos, n) == Fail(Truncated(|x| + 4 - (|x| - pos) % 4, |x|))
    decreases n
  {
    hide FromLe, U32At;
    if n > 0 && pos + 4 <= |x| {
      WordsFormat(x, pos + 4, n - 1);
      ReadsFour(x, pos);
    }
  }

  /** Magic `NUBP`, version 1, flags 0, then four page counts and four lengths. */
  lemma HeaderFormat(x: seq<byte>)
    ensures DecodeHeader(x).Ok? <==> |x| >= 40 && x[..4] == NUBP && U16At(x, 4) == 1 && U16At(x, 6) == 0
    ensures DecodeHeader(x).Ok? ==>
      var pages := Regions(U32At(x, 8), U32At(x, 12), U32At(x, 16), U32At(x, 20));
      DecodeHeader(x) == Ok(Sizes(pages, U32At(x, 24), U32At(x, 28), U32At(x, 32), U32At(x, 36)), 40)
  {
    hide FromLe, U16At, U32At, DecodeWords;
    if |x| >= 8 {
      ReadsTwo(x, 4);
      ReadsTwo(x, 6);
      WordsFormat(x, 8, 8);
      assert x[0..4] == x[..4];
    } else if |x| >= 6 {
      ReadsTwo(x, 4);
    }
  }

  /** A bad header is refused at the first thing wrong with it. */
  lemma HeaderErrors(x: seq<byte>)
    requires DecodeHeader(x).Fail?
    ensures DecodeHeader(x).error ==
            if |x| < 4 then Truncated(4, |x|)
            else if x[..4] != NUBP then BadMagic
            else if |x| < 6 then Truncated(6, |x|)
            else if U16At(x, 4) != 1 then UnsupportedVersion(U16At(x, 4))
            else if |x| < 8 then Truncated(8, |x|)
            else if U16At(x, 6) != 0 then ReservedFlags(U16At(x, 6))
            else Truncated(|x| + 4 - |x| % 4, |x|)
  {
    hide FromLe, U16At, DecodeWords;
    if |x| >= 4 {
      assert x[0..4] == x[..4];
    }
    if |x| >= 6 {
      ReadsTwo(x, 4);
    }
    if |x| >= 8 {
      ReadsTwo(x, 6);
      WordsFormat(x, 8, 8);
    }
  }

  // ---- Endpoints ------------------------------------------------------------

  /** The initial registers of `n` sixteen-byte entries: index, seven bytes of
      padding, value; the last entry of an index counts. */
  function RegsAt(x: seq<byte>, pos: nat, n: nat): map<byte, u64>
    requires pos + 16 * n <= |x|
  {
    if n == 0 then map[]
    else
      var last := pos + 16 * (n - 1);
      RegsAt(x, pos, n - 1)[x[last] := U64At(x, last + 8)]
  }

  lemma {:induction false} RegsFront(x: seq<byte>, pos: nat, n: nat)
    requires n > 0 && pos + 16 * n <= |x|
    ensures RegsAt(x, pos, n) == map[x[pos] := U64At(x, pos + 8)] + RegsAt(x, pos + 16, n - 1)
    decreases n
  {
    hide U64At;
    if n > 1 {
      RegsFront(x, pos, n - 1);
    }
  }

  lemma OneByte(x: seq<byte>, o: nat)
    requires o < |x|
    ensures FromLe(x[o..o + 1]) == x[o]
  {
    assert x[o..o + 1][1..] == [];
  }

  lemma RegFormat(x: seq<byte>, pos: nat)
    ensures DecodeReg(x, pos).Ok? <==> pos + 16 <= |x|
    ensures pos + 16 <= |x| ==> DecodeReg(x, pos) == Ok(RegEntry(x[pos], U64At(x, pos + 8)), pos + 16)
  {
    hide FromLe, U64At;
    if pos < |x| {
      OneByte(x, pos);
    }
    if pos + 16 <= |x| {
      ReadsEight(x, pos + 8);
    }
  }

  lemma PutFirst<T>(acc: map<byte, T>, k: byte, v: T, rest: map<byte, T>)
    ensures acc[k := v] + rest == acc + (map[k := v] + rest) && acc + map[] == acc
  {
  }

  lemma NoRegs(x: seq<byte>, pos: nat)
    requires pos <= |x|
    ensures RegsAt(x, pos, 0) == map[]
  {
  }

  lemma {:induction false} RegsFormat(x: seq<byte>, pos: nat, n: nat, acc: map<byte, u64>)
    requires pos <= |x|
    ensures DecodeRegs(x, pos, n, acc).Ok? <==> pos + 16 * n <= |x|
    ensures pos + 16 * n <= |x| ==> DecodeRegs(x, pos, n, acc) == Ok(acc + RegsAt(x, pos, n), pos + 16 * n)
    decreases n
  {
    hide DecodeReg, U64At, RegsAt;
    if n == 0 {
      NoRegs(x, pos);
      PutFirst(acc, 0, 0, map[]);
    } else {
      RegFormat(x, pos);
      if pos + 16 <= |x| {
        var v := U64At(x, pos + 8);
        RegsFormat(x, pos + 16, n - 1, acc[x[pos] := v]);
        if pos + 16 * n <= |x| {
          RegsFront(x, pos, n);
          PutFirst(acc, x[pos], v, RegsAt(x, pos + 16, n - 1));
        }
      }
    }
  }

  /** An endpoint record: key, argument registers, argument metadata and register
      count in one byte each, the entry pc in eight, then the registers. */
  lemma EndpointFormat(x: seq<byte>, pos: nat)
    ensures DecodeEndpoint(x, pos).Ok? <==> pos + 12 <= |x| && pos + 12 + 16 * x[pos + 3] as int <= |x|
    ensures DecodeEndpoint(x, pos).Ok? ==>
      var n: int := x[pos + 3];
      var ep := Endpoint(U64At(x, pos + 4), x[pos + 1], x[pos + 2], RegsAt(x, pos + 12, n));
      DecodeEndpoint(x, pos) == Ok(Keyed(x[pos], ep), pos + 12 + 16 * n)
  {
    hide FromLe, U64At, DecodeRegs;
    if pos + 12 <= |x| {
      ReadsEight(x, pos + 4);
      RegsFormat(x, pos + 12, x[pos + 3], map[]);
      if DecodeEndpoint(x, pos).Ok? {
        var regs := RegsAt(x, pos + 12, x[pos + 3]);
        assert map[] + regs == regs;
      }
    }
  }

  /** Bytes missing from the first register field that is not all there, with `have`
      bytes of entries. */
  function Missing(have: nat): nat {
    var over := have % 16;
    if over == 0 then 1 else if over < 8 then 8 - over else 16 - over
  }

  lemma MissingLater(have: nat)
    ensures Missing(have + 16) == Missing(have)
  {
  }

  lemma RegError(x: seq<byte>, pos: nat)
    requires pos <= |x| < pos + 16
    ensures DecodeReg(x, pos) == Fail(Truncated(|x| + Missing(|x| - pos), |x|))
  {
    hide FromLe;
  }

  lemma {:induction false} RegsErrors(x: seq<byte>, pos: nat, n: nat, acc: map<byte, u64>)
    requires pos <= |x| < pos + 16 * n
    ensures DecodeRegs(x, pos, n, acc) == Fail(Truncated(|x| + Missing(|x| - pos), |x|))
    decreases n
  {
    hide DecodeReg, Missing;
    if pos + 16 <= |x| {
      RegFormat(x, pos);
      RegsErrors(x, pos + 16, n - 1, acc[x[pos] := U64At(x, pos + 8)]);
      MissingLater(|x| - pos - 16);
    } else {
      RegError(x, pos);
    }
  }

  /** A record cut short is refused at the first field that is not all there. */
  lemma EndpointErrors(x: seq<byte>, pos: nat)
    requires pos <= |x| && DecodeEndpoint(x, pos).Fail?
    ensures DecodeEndpoint(x, pos).error ==
            if |x| < pos + 4 then Truncated(|x| + 1, |x|)
            else if |x| < pos + 12 then Truncated(pos + 12, |x|)
            else Truncated(|x| + Missing(|x| - pos - 12), |x|)
  {
    hide FromLe, DecodeRegs, Missing;
    EndpointFormat(x, pos);
    if pos + 12 <= |x| {
      RegsErrors(x, pos + 12, x[pos + 3], map[]);
    }
  }

  // ---- The rest -------------------------------------------------------------

  /** Behind the endpoints stand the code and the two trimmed regions, which are
      zero-filled to whole pages, and then nothing. */
  lemma BodyFormat(x: seq<byte>) returns (code: nat, ro: nat, rw: nat)
    requires FromBytes(x).Good?
    ensures |x| >= 40 && DecodeEndpoints(x, 40, U32At(x, 36), map[]) == Ok(FromBytes(x).blob.endpoints, code)
    ensures ro == code + U32At(x, 24) && rw == ro + U32At(x, 28) && |x| == rw + U32At(x, 32)
    ensures U32At(x, 28) <= 4096 * U32At(x, 12) && U32At(x, 32) <= 4096 * U32At(x, 16)
    ensures FromBytes(x).blob.code == x[code..ro]
    ensures FromBytes(x).blob.ro == x[ro..rw] + Zeros(4096 * U32At(x, 12) - U32At(x, 28))
    ensures FromBytes(x).blob.rw == x[rw..] + Zeros(4096 * U32At(x, 16) - U32At(x, 32))
  {
    hide DecodeHeader, DecodeEndpoints, U32At, Validate, Zeros;
    HeaderFormat(x);
    code := DecodeEndpoints(x, 40, U32At(x, 36), map[]).pos;
    ro := code + U32At(x, 24);
    rw := ro + U32At(x, 28);
    assert x[rw..] == x[rw..rw + U32At(x, 32)];
  }

  /** A region is refused if it is longer than its pages, or is not all there. */
  lemma RegionErrors(x: seq<byte>, pos: nat, len: nat, pages: nat)
    ensures DecodeRegion(x, pos, len, pages).Ok? <==> len <= 4096 * pages && pos + len <= |x|
    ensures len > 4096 * pages ==> DecodeRegion(x, pos, len, pages) == Fail(RegionOverflow(len, 4096 * pages))
    ensures len <= 4096 * pages && pos + len > |x| ==>
      DecodeRegion(x, pos, len, pages) == Fail(Truncated(pos + len, |x|))
  {
  }

  /** Accepted endpoint records have distinct keys: each adds one endpoint. */
  lemma {:induction false} KeysDistinct(x: seq<byte>, pos: nat, n: nat, acc: map<byte, Endpoint>)
    requires pos <= |x| && DecodeEndpoints(x, pos, n, acc).Ok?
    ensures
      var m := DecodeEndpoints(x, pos, n, acc).value;
      |m| == |acc| + n && forall k <- acc :: k in m && m[k] == acc[k]
    decreases n
  {
    hide DecodeEndpoint;
    if n > 0 {
      var r := DecodeEndpoint(x, pos);
      var acc' := acc[r.value.key := r.value.ep];
      assert acc'.Keys == acc.Keys + {r.value.key} && |acc'| == |acc'.Keys| && |acc| == |acc.Keys|;
      KeysDistinct(x, r.pos, n - 1, acc');
    }
  }

  /** A blob is valid if its code is at most 252 MiB, its data ends within 4 GiB,
      its regions have their page counts' lengths and it has an endpoint; the first
      of these to fail is reported. */
  lemma ValidateReports(b: Blob)
    ensures Validate(b) ==
            if |b.code| > 252 * 1024 * 1024 then Some(CodeTooLarge)
            else if 4096 * (PageSum(b.regions) % 0x1_0000_0000) > 0xF000_0000 then Some(DataOutOfRange)
            else if |b.ro| != 4096 * b.regions.ro || |b.rw| != 4096 * b.regions.rw then Some(RegionLengthMismatch)
            else if |b.endpoints| == 0 then Some(NoEndpoints)
            else None
  {
  }

  // ---- The order records are written in -------------------------------------

  lemma {:induction false} RegsLength(m: map<byte, u64>, k: nat)
    requires k <= 256
    ensures |EncodeRegs(m, k)| == 16 * Count(m, k)
    decreases 256 - k
  {
    hide EncodeReg;
    if k < 256 {
      RegsLength(m, k + 1);
    }
  }

  lemma EndpointLength(key: byte, ep: Endpoint)
    ensures |EncodeEndpoint(key, ep)| == 12 + 16 * |ep.regs|
  {
    hide EncodeRegs, ToLe, Count;
    RegsLength(ep.regs, 0);
    CountAll(ep.regs);
  }

  /** Bytes of the entries with keys from `k` below `i`. */
  function RegsAhead(m: map<byte, u64>, k: nat, i: nat): nat
    requires i <= 256
    decreases i - k
  {
    if k >= i then 0 else (if k in m then 16 else 0) + RegsAhead(m, k + 1, i)
  }

  function EndpointsAhead(m: map<byte, Endpoint>, k: nat, i: nat): nat
    requires i <= 256
    decreases i - k
  {
    if k >= i then 0 else (if k in m then 12 + 16 * |m[k].regs| else 0) + EndpointsAhead(m, k + 1, i)
  }

  lemma SitsLater(front: seq<byte>, b: seq<byte>, pos: nat, e: seq<byte>)
    requires Sits(b, pos, e)
    ensures Sits(front + b, |front| + pos, e)
  {
    assert (front + b)[|front| + pos..|front| + pos + |e|] == b[pos..pos + |e|];
  }

  lemma SitsFirst(e: seq<byte>, b: seq<byte>)
    ensures Sits(e + b, 0, e)
  {
    assert (e + b)[0..|e|] == e;
  }

  /** Registers stand in index order. */
  lemma {:induction false} RegsInOrder(m: map<byte, u64>, k: nat, i: byte)
    requires k <= i && i in m
    ensures Sits(EncodeRegs(m, k), RegsAhead(m, k, i), EncodeReg(i, m[i]))
    decreases i - k
  {
    hide EncodeReg, Sits;
    var here := if k in m then EncodeReg(k, m[k]) else [];
    if k == i {
      SitsFirst(here, EncodeRegs(m, k + 1));
    } else {
      RegsInOrder(m, k + 1, i);
      SitsLater(here, EncodeRegs(m, k + 1), RegsAhead(m, k + 1, i), EncodeReg(i, m[i]));
    }
  }

  /** Endpoints stand in key order. */
  lemma {:induction false} EndpointsInOrder(m: map<byte, Endpoint>, k: nat, i: byte)
    requires k <= i && i in m
    ensures Sits(EncodeEndpoints(m, k), EndpointsAhead(m, k, i), EncodeEndpoint(i, m[i]))
    decreases i - k
  {
    hide EncodeEndpoint, Sits;
    var here := if k in m then EncodeEndpoint(k, m[k]) else [];
    if k in m {
      EndpointLength(k, m[k]);
    }
    if k == i {
      SitsFirst(here, EncodeEndpoints(m, k + 1));
    } else {
      EndpointsInOrder(m, k + 1, i);
      SitsLater(here, EncodeEndpoints(m, k + 1), EndpointsAhead(m, k + 1, i), EncodeEndpoint(i, m[i]));
    }
  }

  lemma SitsWithin(b: seq<byte>, p: nat, e: seq<byte>, q: nat, f: seq<byte>)
    requires Sits(b, p, e) && Sits(e, q, f)
    ensures Sits(b, p + q, f)
  {
    forall j | 0 <= j < |f| ensures b[p + q + j] == f[j] {
      assert b[p + (q + j)] == b[p..p + |e|][q + j] == e[q + j] == e[q..q + |f|][j];
    }
  }

  lemma {:induction false} WordsLength(w: seq<nat>)
    ensures |EncodeWords(w)| == 4 * |w|
  {
    hide ToLe;
    if w != [] {
      WordsLength(w[1..]);
    }
  }

  lemma HeaderLength(b: Blob)
    ensures |Header(b)| == 40
  {
    hide ToLe, TrimmedLen;
    WordsLength(SizeWords(b));
  }

  /** Where the record of endpoint `key` stands: behind those of all smaller keys. */
  function EndpointAt(b: Blob, key: byte): nat {
    40 + EndpointsAhead(b.endpoints, 0, key)
  }

  /** Where the entry of register `i` stands in it: behind those of all smaller
      indices. */
  function RegAt(ep: Endpoint, i: byte): nat {
    12 + RegsAhead(ep.regs, 0, i)
  }

  lemma EndpointRecord(b: Blob, key: byte)
    requires key in b.endpoints
    ensures Sits(ToBytes(b), EndpointAt(b, key), EncodeEndpoint(key, b.endpoints[key]))
  {
    hide EncodeEndpoints, EncodeEndpoint, EndpointsAhead, Sits, Header, ToBytes, TrimmedLen;
    HeaderLength(b);
    Parts(b);
    EndpointsInOrder(b.endpoints, 0, key);
    SitsWithin(ToBytes(b), 40, EncodeEndpoints(b.endpoints, 0), EndpointsAhead(b.endpoints, 0, key),
               EncodeEndpoint(key, b.endpoints[key]));
  }

  lemma RegisterEntry(key: byte, ep: Endpoint, i: byte)
    requires i in ep.regs
    ensures Sits(EncodeEndpoint(key, ep), RegAt(ep, i), EncodeReg(i, ep.regs[i]))
  {
    hide EncodeRegs, RegsAhead, EncodeReg, Sits, ToLe;
    RegsInOrder(ep.regs, 0, i);
    SitsLater([key, ep.argRegisters, ep.argMeta, |ep.regs| % 0x100] + ToLe(ep.entryPc, 8), EncodeRegs(ep.regs, 0),
              RegsAhead(ep.regs, 0, i), EncodeReg(i, ep.regs[i]));
  }

  /** In the encoding of a blob endpoints stand in key order, and registers in index
      order. */
  lemma RecordsInOrder(b: Blob, key: byte, i: byte)
    requires key in b.endpoints && i in b.endpoints[key].regs
    ensures Sits(ToBytes(b), EndpointAt(b, key), EncodeEndpoint(key, b.endpoints[key]))
    ensures Sits(ToBytes(b), EndpointAt(b, key) + RegAt(b.endpoints[key], i), EncodeReg(i, b.endpoints[key].regs[i]))
  {
    hide EncodeEndpoint, EndpointAt, RegAt, EncodeReg, Sits, ToBytes;
    var ep := b.endpoints[key];
    EndpointRecord(b, key);
    RegisterEntry(key, ep, i);
    SitsWithin(ToBytes(b), EndpointAt(b, key), EncodeEndpoint(key, ep), RegAt(ep, i), EncodeReg(i, ep.regs[i]));
  }
}
