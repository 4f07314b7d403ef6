/** rdb.c, lengths and strings: each is written in one of several encodings and read back by its first
    byte. The stream is what is left of the bytes. */
module RdbStrings {
  import opened Bytes
  import opened Decimal
  import opened LittleEndian
  import LzfFormat
  import LzfCompress
  import LzfDecompress

  const LEN_6BIT := 0     // REDIS_RDB_6BITLEN
  const LEN_14BIT := 1    // REDIS_RDB_14BITLEN
  const LEN_32BIT := 2    // REDIS_RDB_32BITLEN
  const ENCVAL := 3       // REDIS_RDB_ENCVAL
  const LENERR := 0xffff_ffff
  const ENC_INT8 := 0
  const ENC_INT16 := 1
  const ENC_INT32 := 2
  const ENC_LZF := 3

  // ---- lengths

  /** `rdbSaveLen`. */
  function SaveLen(len: nat): (b: bytes)
    requires len <= LENERR
    ensures 1 <= |b| <= 5
  {
    if len < 0x40 then [len + LEN_6BIT * 64]
    else if len < 0x4000 then [len / 256 + LEN_14BIT * 64, len % 256]
    else [LEN_32BIT * 64, len / 0x100_0000, len / 0x1_0000 % 256, len / 0x100 % 256, len % 256]
  }

  /** `rdbLoadLen`: the value, whether it is an encoding type, and the rest of the stream. */
  function LoadLen(b: bytes): (r: (nat, bool, bytes))
    ensures |r.2| <= |b| && r.0 <= LENERR && (r.0 != LENERR ==> |r.2| < |b|)
  {
    if b == [] then (LENERR, false, [])
    else if b[0] / 64 == ENCVAL then (b[0] % 64, true, b[1..])
    else if b[0] / 64 == LEN_6BIT then (b[0] % 64, false, b[1..])
    else if b[0] / 64 == LEN_14BIT then
      if |b| < 2 then (LENERR, false, []) else (b[0] as int % 64 * 256 + b[1], false, b[2..])
    else
      if |b| < 5 then (LENERR, false, [])
      else (b[1] as int * 0x100_0000 + b[2] as int * 0x1_0000 + b[3] as int * 0x100 + b[4], false, b[5..])
  }

  /** A length is read back, whatever follows. */
  lemma LenLoads(len: nat, rest: bytes)
    requires len < LENERR
    ensures LoadLen(SaveLen(len) + rest) == (len, false, rest)
  {
    var b := SaveLen(len) + rest;
    if len < 0x40 {
      assert b[1..] == rest;
    } else if len < 0x4000 {
      assert b[2..] == rest;
    } else {
      assert b[5..] == rest;
      BigEndian(len);
    }
  }

  lemma BigEndian(len: nat)
    requires len < 0x1_0000_0000
    ensures len / 0x100_0000 * 0x100_0000 + len / 0x1_0000 % 256 * 0x1_0000 + len / 0x100 % 256 * 0x100 + len % 256
         == len
  {
    assert len / 0x100 == len / 0x1_0000 * 256 + len / 0x100 % 256;
    assert len / 0x1_0000 == len / 0x100_0000 * 256 + len / 0x1_0000 % 256;
  }

  // ---- integers

  /** `rdbEncodeInteger`; nothing when the value needs more than 32 bits. */
  function EncodeInteger(v: int): (enc: bytes)
    ensures enc == [] <==> !(-0x8000_0000 <= v < 0x8000_0000)
  {
    if -0x80 <= v < 0x80 then [ENCVAL * 64 + ENC_INT8, v % 256]
    else if -0x8000 <= v < 0x8000 then [ENCVAL * 64 + ENC_INT16, v % 256, v / 256 % 256]
    else if -0x8000_0000 <= v < 0x8000_0000 then
      [ENCVAL * 64 + ENC_INT32, v % 256, v / 0x100 % 256, v / 0x1_0000 % 256, v / 0x100_0000 % 256]
    else []
  }

  /** The integer of `rdbLoadIntegerObject`. */
  function LoadInteger(enctype: nat, b: bytes): (r: Option<(int, bytes)>)
    requires enctype <= ENC_INT32
    ensures r.Some? ==> |r.value.1| < |b|
  {
    var n := if enctype == ENC_INT8 then 1 else if enctype == ENC_INT16 then 2 else 4;
    if |b| < n then None else Some((Signed(b[..n]), b[n..]))
  }

  lemma IntegerLoads(v: int, rest: bytes)
    requires -0x8000_0000 <= v < 0x8000_0000
    ensures var b := EncodeInteger(v) + rest;
      && b[0] / 64 == ENCVAL && b[0] % 64 <= ENC_INT32
      && LoadInteger(b[0] % 64, b[1..]) == Some((v, rest))
  {
    var enc := EncodeInteger(v);
    var b := enc + rest;
    var n := |enc| - 1;
    assert b[1..][..n] == enc[1..] && b[1..][n..] == rest;
    Widths();
    if n == 1 {
      assert enc[1..] == [v % 256];
      SignedOfBytes1(v);
    } else if n == 2 {
      assert enc[1..] == [v % 256, v / 256 % 256];
      SignedOfBytes2(v);
    } else {
      assert enc[1..] == [v % 256, v / 0x100 % 256, v / 0x1_0000 % 256, v / 0x100_0000 % 256];
      SignedOfBytes4(v);
    }
  }

  lemma SignedOfBytes1(v: int)
    requires -0x80 <= v < 0x80
    ensures Signed([v % 256]) == v
  {
    var b: bytes := [v % 256];
    assert b[1..] == [] && Unsigned(b) == b[0] + 256 * Unsigned(b[1..]);
    Widths();
  }

  lemma SignedOfBytes2(v: int)
    requires -0x8000 <= v < 0x8000
    ensures Signed([v % 256, v / 256 % 256]) == v
  {
    var b: bytes := [v % 256, v / 256 % 256];
    assert b[1..] == [v / 256 % 256] && b[1..][1..] == [];
    assert Unsigned(b[1..]) == b[1] + 256 * Unsigned(b[1..][1..]);
    assert Unsigned(b) == b[0] + 256 * Unsigned(b[1..]);
    Widths();
  }

  lemma SignedOfBytes4(v: int)
    requires -0x8000_0000 <= v < 0x8000_0000
    ensures Signed([v % 256, v / 0x100 % 256, v / 0x1_0000 % 256, v / 0x100_0000 % 256]) == v
  {
    var q3 := v / 0x100_0000;
    UnsignedOf4(v % 256, v / 0x100 % 256, v / 0x1_0000 % 256, q3 % 256);
    ByteDigits(v);
    Widths();
    hide Unsigned, Pow256;
    assert -0x80 <= q3 < 0x80 && q3 % 256 == if q3 < 0 then q3 + 256 else q3;
  }

  lemma ByteDigits(v: int)
    ensures v == v % 256 + 256 * (v / 0x100 % 256 + 256 * (v / 0x1_0000 % 256 + 256 * (v / 0x100_0000)))
  {
    assert v / 0x1_0000 == v / 0x100 / 256;
    assert v / 0x100_0000 == v / 0x1_0000 / 256;
  }

  lemma UnsignedOf4(b0: byte, b1: byte, b2: byte, b3: byte)
    ensures Unsigned([b0, b1, b2, b3]) == b0 + 256 * (b1 + 256 * (b2 + 256 * b3))
  {
    var b: bytes := [b0, b1, b2, b3];
    var t1, t2, t3 := b[1..], b[2..], b[3..];
    assert t3[1..] == [] && t2[1..] == t3 && t1[1..] == t2;
    assert Unsigned(t3) == t3[0] + 256 * Unsigned(t3[1..]);
    assert Unsigned(t2) == t2[0] + 256 * Unsigned(t2[1..]);
    assert Unsigned(t1) == t1[0] + 256 * Unsigned(t1[1..]);
    assert Unsigned(b) == b[0] + 256 * Unsigned(b[1..]);
  }

  // ---- strings

  function Zeros(n: nat): (r: bytes)
    ensures |r| == n
  {
    seq(n, _ => 0)
  }

  /** `rdbLoadLzfStringObject`: the decompressed text in a zeroed buffer of the length that was told. */
  function LoadLzf(b: bytes): (r: Option<(bytes, bytes)>)
    ensures r.Some? ==> |r.value.1| < |b|
  {
    var (clen, _, r1) := LoadLen(b);
    if clen == LENERR then None
    else
      var (len, _, r2) := LoadLen(r1);
      if len == LENERR || clen == 0 || |r2| < clen then None
      else match LzfFormat.Decode(r2[..clen], [], len)
        case None => None
        case Some(o) => if o == [] then None else Some((o + Zeros(if |o| < len then len - |o| else 0), r2[clen..]))
  }

  /** The text of the object `rdbGenericLoadStringObject` returns. An unknown encoding stops the server. */
  function LoadString(b: bytes): (r: Option<(bytes, bytes)>)
    ensures r.Some? ==> |r.value.1| < |b|
  {
    var (len, encoded, rest) := LoadLen(b);
    if encoded then
      if len <= ENC_INT32 then
        match LoadInteger(len, rest)
        case None => None
        case Some(i) => Some((Dec(i.0), i.1))
      else if len == ENC_LZF then LoadLzf(rest)
      else None
    else if len == LENERR || |rest| < len then None
    else Some((rest[..len], rest[len..]))
  }

  /** `b` is the text in one of the encodings: the loader finds it, and stops right behind. */
  ghost predicate StringBytes(b: bytes, text: bytes) {
    b != [] && forall rest: bytes :: LoadString(b + rest) == Some((text, rest))
  }

  lemma VerbatimLoads(s: bytes)
    requires |s| < LENERR
    ensures StringBytes(SaveLen(|s|) + s, s)
  {
    forall rest: bytes
      ensures LoadString(SaveLen(|s|) + s + rest) == Some((s, rest))
    {
      LenLoads(|s|, s + rest);
      ConcatAssoc(SaveLen(|s|), s, rest);
      hide LoadLen, SaveLen;
      assert (s + rest)[..|s|] == s && (s + rest)[|s|..] == rest;
    }
  }

  lemma EncodedIntegerLoads(v: int)
    requires -0x8000_0000 <= v < 0x8000_0000
    ensures StringBytes(EncodeInteger(v), Dec(v))
  {
    forall rest: bytes
      ensures LoadString(EncodeInteger(v) + rest) == Some((Dec(v), rest))
    {
      IntegerLoads(v, rest);
      hide EncodeInteger, LoadInteger, Dec;
    }
  }

  /** A compressed text: its mark, both lengths, the compressed bytes. */
  function LzfRecord(packed: bytes, len: nat): bytes
    requires |packed| < LENERR && len < LENERR
  {
    [ENCVAL * 64 + ENC_LZF] + LzfBody(packed, len)
  }

  function LzfBody(packed: bytes, len: nat): bytes
    requires |packed| < LENERR && len < LENERR
  {
    SaveLen(|packed|) + (SaveLen(len) + packed)
  }

  lemma LzfBodyLoads(packed: bytes, s: bytes, rest: bytes)
    requires 0 < |packed| < LENERR && 0 < |s| < LENERR && LzfFormat.Decode(packed, [], |s|) == Some(s)
    ensures LoadLzf(LzfBody(packed, |s|) + rest) == Some((s, rest))
  {
    var r2 := packed + rest;
    LenLoads(|packed|, SaveLen(|s|) + r2);
    LenLoads(|s|, r2);
    hide LzfFormat.Decode, SaveLen, LoadLen;
    BodyThenRest(SaveLen(|packed|), SaveLen(|s|), packed, rest);
    assert r2[..|packed|] == packed && r2[|packed|..] == rest && s + Zeros(0) == s;
  }

  lemma BodyThenRest(clen: bytes, len: bytes, packed: bytes, rest: bytes)
    ensures clen + (len + packed) + rest == clen + (len + (packed + rest))
  {
  }

  lemma LoadStringLzf(b: bytes, rest: bytes)
    requires LoadLen(b) == (ENC_LZF, true, rest)
    ensures LoadString(b) == LoadLzf(rest)
  {
    hide LoadLen, LoadLzf, LoadInteger;
  }

  lemma MarkFirst(b: bytes, rest: bytes)
    requires b == [ENCVAL * 64 + ENC_LZF] + rest
    ensures LoadLen(b) == (ENC_LZF, true, rest)
  {
    assert b[1..] == rest;
  }

  lemma RecordThenRest(packed: bytes, len: nat, rest: bytes)
    requires |packed| < LENERR && len < LENERR
    ensures LzfRecord(packed, len) + rest == [ENCVAL * 64 + ENC_LZF] + (LzfBody(packed, len) + rest)
  {
    hide LzfBody;
  }

  lemma LzfLoads(packed: bytes, s: bytes)
    requires 0 < |packed| < LENERR && 0 < |s| < LENERR && LzfFormat.Decode(packed, [], |s|) == Some(s)
    ensures StringBytes(LzfRecord(packed, |s|), s)
  {
    hide LoadString, LzfBody, LzfFormat.Decode, LoadLen, LoadLzf;
    forall rest: bytes
      ensures LoadString(LzfRecord(packed, |s|) + rest) == Some((s, rest))
    {
      LzfBodyLoads(packed, s, rest);
      RecordThenRest(packed, |s|, rest);
      MarkFirst(LzfRecord(packed, |s|) + rest, LzfBody(packed, |s|) + rest);
      LoadStringLzf(LzfRecord(packed, |s|) + rest, LzfBody(packed, |s|) + rest);
    }
  }

  // ---- writing strings

  /** Where `strtoll` stops. */
  function EndPtr(b: bytes): (n: nat)
    ensures n <= |b|
  {
    if b != [] && IsSpace(b[0]) then
      var n := EndPtr(b[1..]);
      if n == 0 then 0 else n + 1
    else
      var sign := if b != [] && (b[0] == MINUS || b[0] == 43) then 1 else 0;
      var n := DigitRun(b[sign..]);
      if n == 0 then 0 else sign + n
  }

  /** `strtoll` reads a printed number to its end. */
  lemma StrtollReads(v: int)
    ensures Strtol(Dec(v) + [0]) == v && EndPtr(Dec(v) + [0]) == |Dec(v)|
  {
    hide Strtol, EndPtr, Digits, Value, DigitRun, AllDigits, IsDigit;
    if v < 0 {
      DigitsThenNul(-v);
      SignRead(Digits(-v) + [0]);
      MinusFirst(Digits(-v));
    } else {
      DigitsThenNul(v);
      DigitsRead(Digits(v) + [0]);
    }
  }

  lemma MinusFirst(d: bytes)
    ensures [MINUS] + d + [0] == [MINUS] + (d + [0])
  {
  }

  lemma SignRead(t: bytes)
    requires DigitRun(t) > 0
    ensures Strtol([MINUS] + t) == 0 - Value(t[..DigitRun(t)]) && EndPtr([MINUS] + t) == 1 + DigitRun(t)
  {
    hide DigitRun, Value;
    var b: bytes := [MINUS] + t;
    assert b[1..] == t;
  }

  lemma DigitsRead(t: bytes)
    requires t != [] && IsDigit(t[0]) && DigitRun(t) > 0
    ensures Strtol(t) == Value(t[..DigitRun(t)]) && EndPtr(t) == DigitRun(t)
  {
    hide DigitRun, Value;
    assert t[0..] == t;
  }

  lemma DigitsThenNul(n: nat)
    ensures var t := Digits(n) + [0];
      IsDigit(t[0]) && DigitRun(t) == |Digits(n)| && t[..DigitRun(t)] == Digits(n) && Value(Digits(n)) == n
  {
    var d := Digits(n);
    var t := d + [0];
    assert t[..|d|] == d;
    DigitRunIs(t, |d|);
    ValueDigits(n);
  }

  /** `rdbTryIntegerEncoding`: it encodes what is the print of an integer of 32 bits, and nothing else. */
  method TryIntegerEncoding(s: bytes) returns (enc: bytes)
    ensures enc != [] ==> StringBytes(enc, s)
    ensures enc != [] <==> exists v :: -0x8000_0000 <= v < 0x8000_0000 && s == Dec(v)
  {
    hide StringBytes, EncodeInteger, Strtol, EndPtr, Dec;
    forall v | s == Dec(v)
      ensures Strtol(s + [0]) == v && EndPtr(s + [0]) == |s|
    {
      StrtollReads(v);
    }
    var value, end := Strtol(s + [0]), EndPtr(s + [0]);
    if (s + [0])[end..] == [] || (s + [0])[end] != 0 { return []; }
    var buf := LongLongToString(value);
    if buf != s { return []; }
    enc := EncodeInteger(value);
    if enc != [] { EncodedIntegerLoads(value); }
  }

  /** `rdbSaveLzfStringObject`; nothing when compression does not save four bytes. The table of the
      compressor is not initialised. */
  method SaveLzfString(s: bytes) returns (b: bytes)
    requires 1 < |s| < LENERR
    ensures b != [] ==> StringBytes(b, s)
  {
    if |s| <= 4 { return []; }
    var outlen := |s| - 4;
    var input, out := new byte[|s|](i requires 0 <= i < |s| => s[i]), new byte[outlen + 1];
    var htab := new int[LzfCompress.HSIZE];
    assert input[..] == s;
    hide LzfFormat.Decode, LzfFormat.Encode, LzfFormat.AllFit, StringBytes;
    var comprlen;
    ghost var ts;
    comprlen, ts := LzfCompress.Compress(input, out, outlen, htab);
    if comprlen == 0 { return []; }
    LzfLoads(out[..comprlen], s);
    b := [ENCVAL * 64 + ENC_LZF];
    b := b + (SaveLen(comprlen) + (SaveLen(|s|) + out[..comprlen]));
  }

  /** `rdbSaveRawString`. */
  method SaveRawString(s: bytes, compression: bool) returns (b: bytes)
    requires |s| < LENERR
    ensures StringBytes(b, s)
  {
    hide StringBytes;
    if |s| <= 11 {
      b := TryIntegerEncoding(s);
      if |b| > 0 { return; }
    }
    if compression && |s| > 20 {
      b := SaveLzfString(s);
      if |b| > 0 { return; }
    }
    VerbatimLoads(s);
    b := SaveLen(|s|) + s;
  }

  /** A string object, raw or integer encoded, and its text. */
  datatype Str = Raw(text: bytes) | Int(v: int)

  function Text(o: Str): bytes {
    match o
    case Raw(t) => t
    case Int(v) => Dec(v)
  }

  predicate Storable(o: Str) {
    match o
    case Raw(t) => |t| < LENERR
    case Int(v) => LLONG_MIN <= v <= LLONG_MAX
  }

  /** `rdbSaveLongLongAsStringObject`. */
  method SaveLongLong(v: int) returns (b: bytes)
    requires LLONG_MIN <= v <= LLONG_MAX
    ensures StringBytes(b, Dec(v))
  {
    hide StringBytes, EncodeInteger, Dec;
    b := EncodeInteger(v);
    if |b| > 0 {
      EncodedIntegerLoads(v);
      return;
    }
    var buf := LongLongToString(v);
    DecFits(v);
    VerbatimLoads(buf);
    b := SaveLen(|buf|) + buf;
  }

  /** A long long prints in at most 20 bytes. */
  lemma DecFits(v: int)
    requires LLONG_MIN <= v <= LLONG_MAX
    ensures |Dec(v)| <= 20
  {
    if v < 0 {
      assert Pow10(5) == 100000;
      assert Pow10(10) == 100000 * Pow10(5);
      assert Pow10(15) == 100000 * Pow10(10);
      assert Pow10(19) == 10000 * Pow10(15);
      DigitsLength(-v, 19);
    } else {
      LongLongDigits(v);
    }
  }

  /** `rdbSaveStringObject`. */
  method SaveStringObject(o: Str, compression: bool) returns (b: bytes)
    requires Storable(o)
    ensures StringBytes(b, Text(o))
  {
    match o {
      case Int(v) => b := SaveLongLong(v);
      case Raw(t) => b := SaveRawString(t, compression);
    }
  }

  // ---- reading strings

  /** `rdbLoadLzfStringObject`. */
  method LoadLzfString(s: bytes) returns (r: Option<(bytes, bytes)>)
    ensures r == LoadLzf(s)
  {
    hide LzfFormat.Decode, LoadLen;
    var (clen, _, r1) := LoadLen(s);
    if clen == LENERR { return None; }
    var (len, _, r2) := LoadLen(r1);
    if len == LENERR { return None; }
    if clen == 0 || |r2| < clen { return None; }
    var c, val := new byte[clen](i requires 0 <= i < clen <= |r2| => r2[i]), new byte[len](_ => 0);
    assert c[..clen] == r2[..clen];
    var n := LzfDecompress.Decompress(c, clen, val);
    if n == 0 { return None; }
    assert val[..] == val[..n] + val[n..] && val[n..] == Zeros(len - n);
    r := Some((val[..], r2[clen..]));
  }

  /** `rdbGenericLoadStringObject`. */
  method LoadStringObject(s: bytes) returns (r: Option<(bytes, bytes)>)
    ensures r == LoadString(s)
  {
    hide LoadLen, LoadLzf;
    var (len, encoded, rest) := LoadLen(s);
    if encoded {
      if len <= ENC_INT32 {
        var i := LoadInteger(len, rest);
        if i.None? { return None; }
        var text := LongLongToString(i.value.0);
        return Some((text, i.value.1));
      } else if len == ENC_LZF {
        r := LoadLzfString(rest);
        return;
      }
      return None;
    }
    if len == LENERR { return None; }
    if |rest| < len { return None; }
    r := Some((rest[..len], rest[len..]));
  }
}
