/** lzf_d.c: the decompressor, writing its output buffer in place. */
module LzfDecompress {
  import opened Bytes
  import opened LzfFormat

  /** Copies one literal run (the do-while of lines 89-91). */
  method CopyRun(input: array<byte>, ip: nat, out: array<byte>, op: nat, count: nat)
    requires input != out && ip + count <= input.Length && op + count <= out.Length && count > 0
    modifies out
    ensures out[..op + count] == old(out[..op]) + input[ip..ip + count]
    ensures SameFrom(old(out[..]), out[..], op + count)
  {
    var k := 0;
    while k < count
      invariant k <= count
      invariant out[..op + k] == old(out[..op]) + input[ip..ip + k]
      invariant SameFrom(old(out[..]), out[..], op + k)
    {
      out[op + k] := input[ip + k];
      k := k + 1;
    }
  }

  /** Copies `count` octets from `off + 1` positions back; reads what it has just written
      when the two regions overlap. */
  method CopyBack(out: array<byte>, op: nat, off: nat, count: nat)
    requires off < op && op + count <= out.Length
    modifies out
    ensures out[..op + count] == Copy(old(out[..op]), off, count)
    ensures SameFrom(old(out[..]), out[..], op + count)
  {
    hide Copy;
    var k := 0;
    ghost var built, goal := out[..op], Copy(out[..op], off, count);
    while k < count
      invariant k <= count && |built| == op + k && out[..op + k] == built
      invariant Copy(built, off, count - k) == goal
      invariant SameFrom(old(out[..]), out[..], op + k)
    {
      CopyStep(built, off, count - k);
      built := built + [built[|built| - 1 - off]];
      out[op + k] := out[op + k - off - 1];
      k := k + 1;
    }
    CopyStep(built, off, 0);
  }

  /** The state of the decoder between two tokens: what is left to read and what was written. */
  ghost predicate Reached(whole: Option<bytes>, s: bytes, o: bytes, limit: nat) {
    if s == [] then whole == Some(o) else whole == Decode(s, o, limit)
  }

  /** One literal run, `ip` just past its control byte. */
  method LiteralRun(input: array<byte>, inLen: nat, ip: nat, out: array<byte>, op: nat)
      returns (ok: bool, ip': nat, op': nat)
    requires input != out && 0 < ip <= inLen <= input.Length && op <= out.Length
    requires input[ip - 1] < 32
    modifies out
    ensures !ok ==> Decode(old(input[ip - 1..inLen]), old(out[..op]), out.Length) == None
    ensures ok ==> ip < ip' <= inLen && op <= op' <= out.Length
    ensures ok ==> Reached(Decode(old(input[ip - 1..inLen]), old(out[..op]), out.Length),
                           input[ip'..inLen], out[..op'], out.Length)
    ensures SameFrom(old(out[..]), out[..], op')
  {
    ghost var s := input[ip - 1..inLen];
    DecodeRun(s, out[..op], out.Length);
    hide Decode;
    ip', op' := ip, op;
    var ctrl: int := input[ip - 1];
    ctrl := ctrl + 1;
    if op + ctrl > out.Length { return false, ip, op; }
    if ip + ctrl > inLen { return false, ip, op; }
    ip', op', ok := ip + ctrl, op + ctrl, true;
    SliceOfSlice(input[..], ip - 1, inLen, ip, ip');
    SliceOfSlice(input[..], ip - 1, inLen, ip', inLen);
    CopyRun(input, ip, out, op, ctrl);
  }

  /** The two or three bytes of a back reference, `ip0` just past its control byte; not ok when the
      input ends too early. */
  method ReadReference(input: array<byte>, inLen: nat, ip0: nat)
      returns (ok: bool, ip: nat, len: nat, back: nat)
    requires 0 < ip0 <= inLen <= input.Length && input[ip0 - 1] >= 32
    ensures ok <==> ip0 + (if input[ip0 - 1] as int / 32 == 7 then 2 else 1) <= inLen
    ensures ok ==> ip == ip0 + if input[ip0 - 1] as int / 32 == 7 then 2 else 1
    ensures ok ==> len == if input[ip0 - 1] as int / 32 == 7 then 7 + input[ip0] else input[ip0 - 1] as int / 32
    ensures ok ==> back == input[ip0 - 1] as int % 32 * 256 + input[ip - 1]
  {
    var ctrl: int := input[ip0 - 1];
    ok, ip := false, ip0;
    len := ctrl / 32;
    back := ctrl % 32 * 256;
    if ip >= inLen { return; }
    if len == 7 {
      len := len + input[ip];
      ip := ip + 1;
      if ip >= inLen { return; }
    }
    back := back + input[ip];
    ip := ip + 1;
    ok := true;
  }

  /** One back reference, `ip0` just past its control byte. */
  method BackReference(input: array<byte>, inLen: nat, ip0: nat, out: array<byte>, op0: nat)
      returns (ok: bool, ip: nat, op: nat)
    requires input != out && 0 < ip0 <= inLen <= input.Length && op0 <= out.Length
    requires input[ip0 - 1] >= 32
    modifies out
    ensures !ok ==> Decode(old(input[ip0 - 1..inLen]), old(out[..op0]), out.Length) == None
    ensures ok ==> ip0 < ip <= inLen && op0 <= op <= out.Length
    ensures ok ==> Reached(Decode(old(input[ip0 - 1..inLen]), old(out[..op0]), out.Length),
                           input[ip..inLen], out[..op], out.Length)
    ensures SameFrom(old(out[..]), out[..], op)
  {
    hide Decode, Copy;
    ghost var s, o := input[ip0 - 1..inLen], out[..op0];
    var len, back;
    op := op0;
    ok, ip, len, back := ReadReference(input, inLen, ip0);
    DecodeBack(s, o, out.Length, if s[0] as int / 32 == 7 then 3 else 2, len, back);
    if !ok { return; }
    SliceOfSlice(input[..], ip0 - 1, inLen, ip, inLen);
    if op + len + 2 > out.Length { return false, ip, op; }
    if back + 1 > op { return false, ip, op; }
    CopyBack(out, op, back, len + 2);
    op := op + len + 2;
  }

  /** `lzf_decompress` of `input[..inLen]` into a buffer of `out.Length` bytes: 0 on an error,
      else the number of bytes written. Defined on every non-empty input, malformed or not. */
  method Decompress(input: array<byte>, inLen: nat, out: array<byte>) returns (n: nat)
    requires input != out && 0 < inLen <= input.Length
    modifies out
    ensures n <= out.Length
    ensures match Decode(old(input[..inLen]), [], out.Length)
            case None => n == 0
            case Some(o) => n == |o| && out[..n] == o
    ensures n > 0 ==> SameFrom(old(out[..]), out[..], n)
  {
    var ip: nat, op: nat, ok := 0, 0, true;
    ghost var whole, start := Decode(input[..inLen], [], out.Length), out[..];
    assert out[..op] == [] && input[ip..inLen] == input[..inLen];
    while true
      invariant ip < inLen && op <= out.Length
      invariant Reached(whole, input[ip..inLen], out[..op], out.Length)
      invariant SameFrom(start, out[..], op)
      decreases inLen - ip
    {
      if input[ip] < 32 {
        ok, ip, op := LiteralRun(input, inLen, ip + 1, out, op);
      } else {
        ok, ip, op := BackReference(input, inLen, ip + 1, out, op);
      }
      if !ok { return 0; }
      if ip >= inLen { break; }
    }
    return op;
  }
}
