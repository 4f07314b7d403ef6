/** lzf_c.c: the compressor, with the build options of lzfP.h (HLOG 16, VERY_FAST 1, ULTRA_FAST 0,
    INIT_HTAB 0). Pointers into the input are integer offsets from its first byte, so the
    uninitialised hash table is an array of arbitrary integers. */
module LzfCompress {
  import opened Bytes
  import opened LzfFormat
  import LzfDecompress

  const HSIZE := 0x1_0000
  const UINT_SPAN := 0x1_0000_0000

  function Frst(p0: byte, p1: byte): nat {
    p0 * 256 + p1
  }

  function Next(v: nat, p2: byte): nat {
    (v * 256 + p2) % UINT_SPAN
  }

  function Idx(h: nat): (r: nat)
    ensures r < HSIZE
  {
    (h / 256 - h * 5) % HSIZE
  }

  /** Between two steps of the compressor: `out[..op - lit - 1]` holds the tokens `ts`, then comes
      the byte reserved for the header of the current run, then its `lit` bytes. */
  ghost predicate Emitted(s: bytes, ip: nat, out: bytes, op: nat, lit: nat, ts: seq<Token>) {
    && lit <= ip <= |s| && lit + 1 <= op <= |out| && lit <= MAX_LIT
    && AllFit(ts) && Applicable([], ts)
    && Expand([], ts) == s[..ip - lit]
    && out[op - lit..op] == s[ip - lit..ip]
    && out[..op - lit - 1] == Encode(ts)
  }

  /** The tokens `ts` are exactly what has been written and stand for exactly what has been read. */
  ghost predicate Closed(s: bytes, ip: nat, out: bytes, op: nat, ts: seq<Token>) {
    && ip <= |s| && op <= |out|
    && AllFit(ts) && Applicable([], ts) && Expand([], ts) == s[..ip] && out[..op] == Encode(ts)
  }

  /** Writing the header of a non-empty run turns the run into one more token. */
  lemma RunCloses(s: bytes, ip: nat, out: bytes, op: nat, lit: nat, ts: seq<Token>, out': bytes)
    requires Emitted(s, ip, out, op, lit, ts) && 0 < lit && op <= |out| == |out'|
    requires out' == out[op - lit - 1 := lit - 1]
    ensures AllFit(ts + [Literal(s[ip - lit..ip])])
    ensures Closed(s, ip, out', op, ts + [Literal(s[ip - lit..ip])])
  {
    var t := Literal(s[ip - lit..ip]);
    EncodeSnoc(ts, t);
    ExpandSnoc([], ts, t);
    assert EncodeToken(t) == [lit - 1] + s[ip - lit..ip];
    assert Apply(Expand([], ts), t) == Expand([], ts) + s[ip - lit..ip];
    hide Encode, Expand, EncodeToken, Apply, Applicable, AllFit;
    assert s[..ip] == s[..ip - lit] + s[ip - lit..ip];
    HeaderWritten(out, op, lit, out');
  }

  lemma HeaderWritten(out: bytes, op: nat, lit: nat, out': bytes)
    requires 0 < lit < op <= |out| && lit <= MAX_LIT && out' == out[op - lit - 1 := lit - 1]
    ensures out'[..op] == out[..op - lit - 1] + ([lit - 1] + out[op - lit..op])
  {
  }

  /** Back-patches the header of the current run and, when the run is empty, takes the reserved
      byte back ("stop run", "undo run"). */
  method StopRun(ghost s: bytes, ghost ip: nat, out: array<byte>, op: nat, lit: nat, ghost ts: seq<Token>)
      returns (op': nat, ghost ts': seq<Token>)
    requires Emitted(s, ip, out[..], op, lit, ts) && op - lit - 1 < out.Length
    modifies out
    ensures op' == op - (if lit == 0 then 1 else 0)
    ensures Closed(s, ip, out[..], op', ts')
    ensures SameFrom(old(out[..]), out[..], op)
  {
    ghost var before := out[..];
    out[op - lit - 1] := (lit - 1) % 256;
    op' := if lit == 0 then op - 1 else op;
    ts' := ts;
    if lit > 0 {
      RunCloses(s, ip, before, op, lit, ts, out[..]);
      ts' := ts + [Literal(s[ip - lit..ip])];
    } else {
      assert out[..op'] == before[..op'];
    }
  }

  /** The longest match the token can hold, found by the code's unrolled comparisons and the loop
      after them. The match never extends past the input. */
  method MatchLength(input: array<byte>, ref: nat, ip: nat) returns (len: nat)
    requires ref < ip && ip + 4 < input.Length
    requires input[ref] == input[ip] && input[ref + 1] == input[ip + 1] && input[ref + 2] == input[ip + 2]
    ensures 3 <= len <= MAX_REF && ip + len <= input.Length
    ensures Periodic(input[..], ip, ip + len, ip - ref)
    ensures len < MAX_REF && ip + len + 2 < input.Length ==> input[ref + len] != input[ip + len]
  {
    ghost var s, d := input[..], ip - ref;
    len := 2;
    assert SameAt(s, ip, d) && SameAt(s, ip + 1, d) && SameAt(s, ip + 2, d);
    var maxlen := input.Length - ip - len;
    maxlen := if maxlen > MAX_REF then MAX_REF else maxlen;
    if maxlen > 16 {
      var unrolled := 0;
      while unrolled < 16
        invariant 0 <= unrolled <= 16 && len == 2 + unrolled
        invariant Periodic(s, ip, ip + len + 1, d)
      {
        unrolled := unrolled + 1;
        len := len + 1;
        if input[ref + len] != input[ip + len] { return; }
        assert SameAt(s, ip + len, d);
      }
    }
    len := len + 1;
    while len < maxlen && input[ref + len] == input[ip + len]
      invariant 3 <= len && (len <= maxlen || len <= 19 <= maxlen + 2)
      invariant Periodic(s, ip, ip + len, d)
      decreases maxlen - len
    {
      assert SameAt(s, ip + len, d);
      len := len + 1;
    }
  }

  /** Writes the two or three bytes of a back reference to `len + 2` octets. */
  method EmitBackReference(out: array<byte>, op: nat, off: nat, len: nat) returns (op': nat)
    requires off < MAX_OFF && 1 <= len <= MAX_REF - 2 && op + 3 <= out.Length
    modifies out
    ensures op' <= op + (if len < 7 then 2 else 3)
    ensures op <= op' && out[..op'] == old(out[..op]) + EncodeToken(BackRef(off, len + 2))
    ensures SameFrom(old(out[..]), out[..], op + 3)
  {
    ghost var before := out[..];
    FieldsFit(off, len);
    hide EncodeToken;
    op' := op;
    if len < 7 {
      out[op'] := (off / 256 + len * 32) % 256;
      op' := op' + 1;
    } else {
      out[op'] := (off / 256 + 7 * 32) % 256;
      out[op' + 1] := (len - 7) % 256;
      op' := op' + 2;
    }
    out[op'] := off % 256;
    op' := op' + 1;
    assert out[..op] == before[..op];
    assert out[..op'] == out[..op] + out[op..op'];
    assert out[op..op'] == EncodeToken(BackRef(off, len + 2));
  }

  /** The bytes that are written are those of the token. */
  lemma FieldsFit(off: nat, len: nat)
    requires off < MAX_OFF && 1 <= len <= MAX_REF - 2
    ensures EncodeToken(BackRef(off, len + 2))
         == if len < 7 then [(off / 256 + len * 32) % 256, off % 256]
            else [(off / 256 + 7 * 32) % 256, (len - 7) % 256, off % 256]
  {
  }

  /** Extends the closed stream by a back reference: the octets read repeat those `off + 1` back. */
  lemma BackReferenceCloses(s: bytes, ip: nat, out: bytes, op: nat, ts: seq<Token>, out': bytes, op': nat,
      off: nat, len: nat)
    requires Closed(s, ip, out, op, ts) && Fits(BackRef(off, len))
    requires off < ip && ip + len <= |s|
    requires Periodic(s, ip, ip + len, off + 1)
    requires op' <= |out'| && out'[..op'] == out[..op] + EncodeToken(BackRef(off, len))
    ensures Closed(s, ip + len, out', op', ts + [BackRef(off, len)])
  {
    EncodeSnoc(ts, BackRef(off, len));
    ExpandSnoc([], ts, BackRef(off, len));
    CopyIsPeriodic(s, ip, off, len);
  }

  /** The last token is the reference to `ref` for the octets from `ip` up to `end`; no longer match fits the
      token and the input. */
  ghost predicate Longest(s: bytes, ref: nat, ip: nat, end: nat, ts: seq<Token>) {
    && ref < ip <= end <= ip + 264 && ts != [] && ts[|ts| - 1] == BackRef(ip - ref - 1, end - ip)
    && (end < ip + 264 && end + 2 < |s| ==> s[ref + (end - ip)] != s[end])
  }

  /** The same under a name that keeps what it says out of the proofs that only pass it on. */
  ghost predicate BestMatch(s: bytes, ref: nat, ip: nat, end: nat, ts: seq<Token>) {
    Longest(s, ref, ip, end, ts)
  }

  /** The token of the match at `ref`, written where the closed stream ends. */
  method EmitMatch(input: array<byte>, ip: nat, ref: nat, out: array<byte>, op: nat, ghost ts: seq<Token>)
      returns (ip': nat, op': nat, ghost ts': seq<Token>)
    requires input != out && op + 3 <= out.Length
    requires Closed(input[..], ip, out[..], op, ts)
    requires 0 < ref < ip && ip - ref - 1 < MAX_OFF && ip + 4 < input.Length
    requires input[ref] == input[ip] && input[ref + 1] == input[ip + 1] && input[ref + 2] == input[ip + 2]
    modifies out
    ensures ip + 3 <= ip' <= input.Length && op <= op' <= op + (if ip' - ip < 9 then 2 else 3)
    ensures Closed(input[..], ip', out[..], op', ts')
    ensures BestMatch(input[..], ref, ip, ip', ts')
    ensures SameFrom(old(out[..]), out[..], op + 3)
  {
    hide Closed, SameAt, Periodic, SameFrom, EncodeToken;
    ghost var closed := out[..];
    var len := MatchLength(input, ref, ip);
    var off := ip - ref - 1;
    op' := EmitBackReference(out, op, off, len - 2);
    ip', ts' := ip + len, ts + [BackRef(off, len)];
    BackReferenceCloses(input[..], ip, closed, op, ts, out[..], op', off, len);
  }

  lemma TailGrows(out: bytes, op: nat, from: nat, c: byte)
    requires from <= op < |out|
    ensures out[op := c][from..op + 1] == out[from..op] + [c]
    ensures forall k :: 0 <= k <= from ==> out[op := c][..k] == out[..k]
  {
  }

  /** Writing one more byte of the input keeps the open run in step with it. */
  lemma RunGrows(s: bytes, ip: nat, out: bytes, op: nat, lit: nat, ts: seq<Token>, out': bytes)
    requires Emitted(s, ip, out, op, lit, ts) && ip < |s| && op < |out| && lit < MAX_LIT
    requires out' == out[op := s[ip]]
    ensures Emitted(s, ip + 1, out', op + 1, lit + 1, ts)
  {
    TailGrows(out, op, op - lit, s[ip]);
    assert s[ip - lit..ip] + [s[ip]] == s[ip - lit..ip + 1];
    hide Encode, Expand, Applicable, AllFit;
  }

  /** A closed stream with the next byte reserved is an open one with an empty run. */
  lemma RunStarts(s: bytes, ip: nat, out: bytes, op: nat, ts: seq<Token>)
    requires Closed(s, ip, out, op, ts) && op < |out|
    ensures Emitted(s, ip, out, op + 1, 0, ts)
  {
  }

  /** One byte joins the current run; a full run is closed and a new one started. */
  method CopyLiteral(input: array<byte>, ip: nat, out: array<byte>, op: nat, lit: nat, ghost ts: seq<Token>)
      returns (op': nat, lit': nat, ghost ts': seq<Token>)
    requires input != out && ip < input.Length && op + 1 < out.Length && lit < MAX_LIT
    requires Emitted(input[..], ip, out[..], op, lit, ts)
    modifies out
    ensures lit' < MAX_LIT && MAX_LIT * op' + lit' == MAX_LIT * op + lit + MAX_LIT + 1
    ensures Emitted(input[..], ip + 1, out[..], op', lit', ts')
    ensures SameFrom(old(out[..]), out[..], op + 1)
  {
    RunGrows(input[..], ip, out[..], op, lit, ts, out[..][op := input[ip]]);
    lit' := lit + 1;
    out[op] := input[ip];
    op', ts' := op + 1, ts;
    if lit' == MAX_LIT {
      op', ts' := StopRun(input[..], ip + 1, out, op', lit', ts);
      RunStarts(input[..], ip + 1, out[..], op', ts');
      lit' := 0;
      op' := op' + 1;
    }
  }

  /** The hash-table entries for the last two positions a match has jumped over. */
  method Reindex(input: array<byte>, ip: nat, htab: array<int>) returns (hval: nat)
    requires 2 <= ip && ip + 2 < input.Length && htab.Length == HSIZE
    modifies htab
  {
    hval := Frst(input[ip - 2], input[ip - 1]);
    hval := Next(hval, input[ip]);
    htab[Idx(hval)] := ip - 2;
    hval := Next(hval, input[ip + 1]);
    htab[Idx(hval)] := ip - 1;
  }

  /** The guard of line 151: the candidate lies before `ip`, inside the input and within reach, the
      input goes on far enough, and three octets agree. It is all the code knows about `ref`. */
  predicate IsMatch(s: bytes, ref: int, ip: nat) {
    && 0 <= ip - ref - 1 < MAX_OFF && ip + 4 < |s| && ref > 0
    && s[ref] == s[ip] && s[ref + 1] == s[ip + 1] && s[ref + 2] == s[ip + 2]
  }

  /** The reference, and the reserved byte of the next run. */
  method EmitAndStart(input: array<byte>, ip0: nat, ref: nat, out: array<byte>, op0: nat, ghost ts0: seq<Token>)
      returns (ip: nat, op: nat, ghost ts: seq<Token>)
    requires input != out && op0 + 4 < out.Length && IsMatch(input[..], ref, ip0)
    requires Closed(input[..], ip0, out[..], op0, ts0)
    modifies out
    ensures ip0 + 3 <= ip <= input.Length
    ensures op0 < op <= op0 + (if ip - ip0 < 9 then 3 else 4)
    ensures BestMatch(input[..], ref, ip0, ip, ts)
    ensures Emitted(input[..], ip, out[..], op, 0, ts)
    ensures SameFrom(old(out[..]), out[..], op0 + 3)
  {
    hide Closed, Emitted, SameFrom, BestMatch;
    ip, op, ts := EmitMatch(input, ip0, ref, out, op0, ts0);
    RunStarts(input[..], ip, out[..], op, ts);
    op := op + 1;
  }

  /** A match: close the run, check the room, emit the reference, reserve the next run header. */
  method TakeMatch(input: array<byte>, ip0: nat, ref: nat, out: array<byte>, outLen: nat, op0: nat, lit: nat,
      ghost ts0: seq<Token>) returns (ok: bool, ip: nat, op: nat, ghost ts: seq<Token>)
    requires input != out && outLen < out.Length && IsMatch(input[..], ref, ip0)
    requires Emitted(input[..], ip0, out[..], op0, lit, ts0) && op0 - 1 <= outLen
    modifies out
    ensures ok <==> op0 - (if lit == 0 then 1 else 0) + 4 < outLen
    ensures ok ==> ip0 + 3 <= ip <= input.Length && op <= outLen
    ensures ok ==> BestMatch(input[..], ref, ip0, ip, ts)
    ensures ok ==> Emitted(input[..], ip, out[..], op, 0, ts)
    ensures ok ==> op - ip <= op0 - ip0 + (if lit == 0 then -1 else 0)
    ensures SameFrom(old(out[..]), out[..], outLen + 1)
  {
    ghost var before := out[..];
    ip := ip0;
    op, ts := StopRun(input[..], ip, out, op0, lit, ts0);
    hide Closed, Emitted, SameFrom, BestMatch;
    ghost var stopped := out[..];
    SameFromTrans(before, before, stopped, 0, op0);
    if op + 3 + 1 >= outLen { return false, ip, op, ts; }
    ghost var stop := op;
    ip, op, ts := EmitAndStart(input, ip, ref, out, op, ts);
    SameFromTrans(before, stopped, out[..], op0, stop + 3);
    ok := true;
  }

  lemma ScanStarts(s: bytes, out: bytes)
    requires |out| > 1
    ensures Emitted(s, 0, out, 1, 0, []) && forall k :: SameFrom(out, out, k)
  {
  }

  /** One turn of the main loop. `took` tells whether the candidate that the table has for the next three
      octets is taken: it is if and only if it lies before, inside the input, at most 8192 octets back, has
      the same three octets, and five octets are left; the match is then the longest there can be. */
  method ScanTurn(input: array<byte>, ip0: nat, out: array<byte>, outLen: nat, htab: array<int>, hval0: nat,
                  op0: nat, lit0: nat, ghost ts0: seq<Token>)
      returns (ok: bool, took: bool, ip: nat, op: nat, lit: nat, hval: nat, ghost ts: seq<Token>)
    requires input != out && outLen < out.Length && htab.Length == HSIZE
    requires ip0 < input.Length - 2 && op0 <= outLen + 1 && lit0 < MAX_LIT
    requires Emitted(input[..], ip0, out[..], op0, lit0, ts0) && 32 * (op0 - 1 - ip0) <= ip0 - lit0
    modifies out, htab
    ensures var s := input[..]; var ref := old(htab[..])[Idx(Next(hval0, s[ip0 + 2]))];
      && (took <==> && 0 < ref < ip0 && ip0 - ref <= 8192 && ip0 + 4 < |s|
                    && s[ref] == s[ip0] && s[ref + 1] == s[ip0 + 1] && s[ref + 2] == s[ip0 + 2])
      && (ok <==> if took then op0 - (if lit0 == 0 then 1 else 0) + 4 < outLen else op0 < outLen)
      && (ok && took ==>
            && ip0 + 3 <= ip <= ip0 + 264 && ts != [] && ts[|ts| - 1] == BackRef(ip0 - ref - 1, ip - ip0)
            && (ip < ip0 + 264 && ip + 2 < |s| ==> s[ref + (ip - ip0)] != s[ip]))
    ensures ok && !took ==> ip == ip0 + 1
    ensures ok ==> ip0 < ip <= input.Length && op <= outLen + 1 && lit < MAX_LIT
    ensures ok ==> Emitted(input[..], ip, out[..], op, lit, ts) && 32 * (op - 1 - ip) <= ip - lit
    ensures SameFrom(old(out[..]), out[..], outLen + 1)
  {
    hide Emitted, SameFrom, Frst, Next, Idx;
    ghost var before := out[..];
    ip, op, lit, ts := ip0, op0, lit0, ts0;
    hval := Next(hval0, input[ip + 2]);
    var ref := htab[Idx(hval)];
    htab[Idx(hval)] := ip;
    took := IsMatch(input[..], ref, ip);
    if took {
      ok, ip, op, ts := TakeMatch(input, ip, ref, out, outLen, op, lit, ts);
      lit := 0;
      if ok && ip < input.Length - 2 { hval := Reindex(input, ip, htab); }
    } else {
      ok := op < outLen;
      if !ok {
        SameFromRefl(before, outLen + 1);
        return;
      }
      op, lit, ts := CopyLiteral(input, ip, out, op, lit, ts);
      SameFromTrans(before, before, out[..], outLen + 1, outLen + 1);
      ip := ip + 1;
    }
  }

  lemma SameFromRefl(s: bytes, i: nat)
    ensures SameFrom(s, s, i)
  {
  }

  /** The main loop. `ok` is false where the C function returns 0. The first hash value is never used;
      of a one-byte input it takes in the byte that follows, whatever it is. */
  method Scan(input: array<byte>, out: array<byte>, outLen: nat, htab: array<int>)
      returns (ok: bool, ip: nat, op: nat, lit: nat, ghost ts: seq<Token>)
    requires input != out && input.Length > 0 && 0 < outLen < out.Length && htab.Length == HSIZE
    requires input.Length < UINT_SPAN
    modifies out, htab
    ensures ok ==> input.Length - 2 <= ip <= input.Length && op <= outLen + 1 && lit < MAX_LIT
    ensures ok ==> Emitted(input[..], ip, out[..], op, lit, ts)
    ensures ok ==> 32 * (op - 1 - ip) <= ip - lit
    ensures outLen >= input.Length + input.Length / 32 + 4 ==> ok
    ensures SameFrom(old(out[..]), out[..], outLen + 1)
  {
    ok, ip, op, lit, ts := true, 0, 1, 0, [];
    ghost var s, before := input[..], out[..];
    var beyond: byte :| 0 <= beyond;
    var hval := Frst(input[0], if input.Length > 1 then input[1] else beyond);
    ScanStarts(s, before);
    hide Emitted, SameFrom, Frst, Next, Idx;
    while ip < input.Length - 2
      invariant ip <= input.Length && op <= outLen + 1 && lit < MAX_LIT
      invariant Emitted(s, ip, out[..], op, lit, ts)
      invariant 32 * (op - 1 - ip) <= ip - lit
      invariant SameFrom(before, out[..], outLen + 1)
    {
      ghost var now := out[..];
      var took;
      ok, took, ip, op, lit, hval, ts := ScanTurn(input, ip, out, outLen, htab, hval, op, lit, ts);
      SameFromTrans(before, now, out[..], outLen + 1, outLen + 1);
      if !ok { return; }
    }
  }

  /** The at most two bytes after the main loop. */
  method CopyRest(input: array<byte>, ip0: nat, out: array<byte>, outLen: nat, op0: nat, lit0: nat,
      ghost ts0: seq<Token>) returns (ip: nat, op: nat, lit: nat, ghost ts: seq<Token>)
    requires input != out && outLen < out.Length && lit0 < MAX_LIT
    requires input.Length - 2 <= ip0 <= input.Length && op0 + 3 <= outLen
    requires Emitted(input[..], ip0, out[..], op0, lit0, ts0)
    modifies out
    ensures ip == input.Length && op <= outLen && Emitted(input[..], ip, out[..], op, lit, ts)
    ensures SameFrom(old(out[..]), out[..], outLen + 1)
  {
    hide Emitted;
    ghost var s, before := input[..], out[..];
    ip, op, lit, ts := ip0, op0, lit0, ts0;
    while ip < input.Length
      invariant input.Length - 2 <= ip <= input.Length && lit < MAX_LIT
      invariant 32 * op + lit == 32 * op0 + lit0 + 33 * (ip - ip0)
      invariant Emitted(s, ip, out[..], op, lit, ts)
      invariant SameFrom(before, out[..], outLen + 1)
    {
      op, lit, ts := CopyLiteral(input, ip, out, op, lit, ts);
      ip := ip + 1;
    }
  }

  /** `lzf_compress` of the whole input into the first `outLen` bytes of `out`; the caller has
      allocated one byte more. Returns 0 when it gives up, which it never does when the buffer is
      big enough for the input as literal runs. Whatever the hash table holds, what it returns is
      decoded to the input. */
  method Compress(input: array<byte>, out: array<byte>, outLen: nat, htab: array<int>)
      returns (n: nat, ghost ts: seq<Token>)
    requires input != out && outLen < out.Length && htab.Length == HSIZE
    requires input.Length < UINT_SPAN
    modifies out, htab
    ensures n <= outLen
    ensures n > 0 ==> AllFit(ts) && out[..n] == Encode(ts)
    ensures n > 0 ==> Decode(out[..n], [], input.Length) == Some(input[..])
    ensures input.Length > 0 && outLen >= input.Length + input.Length / 32 + 4 ==> n > 0
    ensures SameFrom(old(out[..]), out[..], outLen + 1)
  {
    ts := [];
    if input.Length == 0 || outLen == 0 { return 0, ts; }
    var ok, ip, op, lit;
    ok, ip, op, lit, ts := Scan(input, out, outLen, htab);
    if !ok { return 0, ts; }
    if op + 3 > outLen { return 0, ts; }
    ip, op, lit, ts := CopyRest(input, ip, out, outLen, op, lit, ts);
    n, ts := StopRun(input[..], ip, out, op, lit, ts);
    assert input[..input.Length] == input[..];
    DecodeEncode(ts, [], input.Length);
  }

  /** The round trip: decompressing what was compressed into a buffer of the original length gives
      the original length and the original bytes. */
  method RoundTrip(input: array<byte>, packed: array<byte>, outLen: nat, htab: array<int>, restored: array<byte>)
      returns (n: nat, m: nat)
    requires input != packed && restored != input && restored != packed
    requires outLen < packed.Length && htab.Length == HSIZE && input.Length < UINT_SPAN
    requires restored.Length == input.Length
    modifies packed, htab, restored
    ensures n > 0 ==> m == input.Length && restored[..] == old(input[..])
  {
    ghost var ts;
    n, ts := Compress(input, packed, outLen, htab);
    m := 0;
    if n > 0 {
      m := LzfDecompress.Decompress(packed, n, restored);
      assert restored[..m] == restored[..];
    }
  }
}
