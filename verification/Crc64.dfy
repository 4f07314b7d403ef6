/** crc64.c, the running checksum of rio.h, and the DUMP payloads of migrate.c. */
module Crc64 {
  import opened Crc64Table

  const RDB_VERSION: bv16 := 6  // REDIS_RDB_VERSION

  // ---- words, by name so that proofs can keep them closed

  function Xor(a: bv64, b: bv64): bv64 {
    a ^ b
  }

  function Xor8(a: octet, b: octet): octet {
    a ^ b
  }

  /** The lowest byte, and the rest. */
  function Low(x: bv64): octet {
    (x & 0xff) as octet
  }

  function Rest(x: bv64): bv64 {
    x >> 8
  }

  function Top(x: bv64): octet {
    (x >> 56) as octet
  }

  /** The word with lowest byte `b` and rest `p`, whose top byte has to be zero. */
  function Word(b: octet, p: bv64): bv64 {
    (b as bv64) ^ (p << 8)
  }

  predicate TopZero(x: bv64) {
    x & 0xff00_0000_0000_0000 == 0
  }

  lemma XorCancels(a: bv64, b: bv64, b': bv64)
    requires Xor(a, b) == Xor(a, b')
    ensures b == b'
  {
  }

  lemma Xor8Cancels(a: octet, b: octet, b': octet)
    requires Xor8(a, b) == Xor8(a, b')
    ensures b == b'
  {
  }

  lemma Xor8CancelsRight(a: octet, a': octet, b: octet)
    requires Xor8(a, b) == Xor8(a', b)
    ensures a == a'
  {
  }

  lemma XorAssoc(a: bv64, b: bv64, c: bv64)
    ensures Xor(a, Xor(b, c)) == Xor(Xor(a, b), c)
  {
  }

  lemma LowAndRest(x: bv64, x': bv64)
    requires Low(x) == Low(x') && Rest(x) == Rest(x')
    ensures x == x'
  {
  }

  lemma WordParts(b: octet, p: bv64)
    requires TopZero(p)
    ensures Low(Word(b, p)) == b && Rest(Word(b, p)) == p
  {
  }

  lemma LowOfXor(x: bv64, b: octet, p: bv64)
    ensures Low(Xor(x, Word(b, p))) == Xor8(Low(x), b)
  {
  }

  lemma RestOfXor(x: bv64, b: octet, p: bv64)
    requires TopZero(p)
    ensures Rest(Xor(x, Word(b, p))) == Xor(Rest(x), p)
  {
  }

  lemma XorZero(x: bv64, b: octet)
    ensures Xor(x, 0) == x && Xor8(b, 0) == b
  {
  }

  // ---- one byte

  /** One turn of the loop of `crc64`. */
  function Step(crc: bv64, b: octet): bv64 {
    Xor(Tab(Xor8(Low(crc), b)), Rest(crc))
  }

  lemma TopOfStep(x: bv64, b: octet)
    ensures Top(Step(x, b)) == Top(Tab(Xor8(Low(x), b)))
  {
    hide Tab;
  }

  lemma IndexOfTop(i: octet)
    ensures Index(Top(Tab(i))) == i
  {
    TopByteTells(i);
    hide Tab, Index;
  }

  /** The state and the byte tell which entry was used, and the result tells it too. */
  lemma StepTells(x: bv64, b: octet)
    ensures Index(Top(Step(x, b))) == Xor8(Low(x), b)
  {
    hide *;
    TopOfStep(x, b);
    IndexOfTop(Xor8(Low(x), b));
  }

  /** The step is injective in the byte. */
  lemma StepInjectiveInByte(crc: bv64, b: octet, b': octet)
    requires Step(crc, b) == Step(crc, b')
    ensures b == b'
  {
    hide *;
    StepTells(crc, b);
    StepTells(crc, b');
    Xor8Cancels(Low(crc), b, b');
  }

  /** The step is injective in the state. */
  lemma StepInjectiveInState(crc: bv64, crc': bv64, b: octet)
    requires Step(crc, b) == Step(crc', b)
    ensures crc == crc'
  {
    StepTells(crc, b);
    StepTells(crc', b);
    hide Tab, Xor, Xor8, Low, Rest, Top, Index;
    XorCancels(Tab(Xor8(Low(crc), b)), Rest(crc), Rest(crc'));
    Xor8CancelsRight(Low(crc), Low(crc'), b);
    LowAndRest(crc, crc');
  }

  // ---- byte strings

  function Crc(crc: bv64, s: seq<octet>): bv64
    decreases |s|
  {
    if s == [] then crc else Crc(Step(crc, s[0]), s[1..])
  }

  /** `crc64`. */
  method Crc64(crc0: bv64, s: seq<octet>) returns (crc: bv64)
    ensures crc == Crc(crc0, s)
  {
    hide Step;
    crc := crc0;
    var j := 0;
    while j < |s|
      invariant j <= |s| && Crc(crc, s[j..]) == Crc(crc0, s)
    {
      crc := Step(crc, s[j]);
      j := j + 1;
    }
  }

  /** The checksum of a concatenation. */
  lemma {:induction false} CrcConcat(crc: bv64, a: seq<octet>, b: seq<octet>)
    ensures Crc(crc, a + b) == Crc(Crc(crc, a), b)
    decreases |a|
  {
    hide Step;
    if a == [] {
      assert a + b == b;
    } else {
      assert (a + b)[1..] == a[1..] + b;
      CrcConcat(Step(crc, a[0]), a[1..], b);
    }
  }

  function Join(chunks: seq<seq<octet>>): seq<octet> {
    if chunks == [] then [] else Join(chunks[..|chunks| - 1]) + chunks[|chunks| - 1]
  }

  /** Bytes after a difference never make up for it. */
  lemma {:induction false} CrcInjectiveInState(crc: bv64, crc': bv64, s: seq<octet>)
    requires Crc(crc, s) == Crc(crc', s)
    ensures crc == crc'
    decreases |s|
  {
    hide Step;
    if s != [] {
      CrcInjectiveInState(Step(crc, s[0]), Step(crc', s[0]), s[1..]);
      StepInjectiveInState(crc, crc', s[0]);
    }
  }

  // ---- windows of eight bytes

  /** Up to eight bytes as a word, the first lowest. */
  function Pack(s: seq<octet>): bv64 {
    if s == [] then 0 else Word(s[0], Pack(s[1..]))
  }

  /** `n` zero bytes. */
  function Zeros(x: bv64, n: nat): bv64
    decreases n
  {
    if n == 0 then x else Zeros(Step(x, 0), n - 1)
  }

  function Mask(n: nat): bv64 {
    if n == 0 then 0 else (Mask(n - 1) << 8) | 0xff
  }

  lemma Mask7()
    ensures Mask(7) == 0x00ff_ffff_ffff_ffff
  {
    assert Mask(1) == 0xff;
    assert Mask(2) == 0xffff;
    assert Mask(3) == 0xff_ffff;
    assert Mask(4) == 0xffff_ffff;
    assert Mask(5) == 0xff_ffff_ffff;
    assert Mask(6) == 0xffff_ffff_ffff;
  }

  lemma {:induction false} PackFits(s: seq<octet>, n: nat)
    requires |s| <= n
    ensures Pack(s) & !Mask(n) == 0
  {
    if s != [] { PackFits(s[1..], n - 1); }
  }

  lemma PackTop(s: seq<octet>)
    requires |s| <= 7
    ensures TopZero(Pack(s))
  {
    PackFits(s, 7);
    Mask7();
    hide Pack, Mask;
  }

  lemma PackIs(s: seq<octet>)
    requires s != []
    ensures Pack(s) == Word(s[0], Pack(s[1..]))
  {
    hide Word;
  }

  lemma {:induction false} PackInjective(s: seq<octet>, s': seq<octet>)
    requires |s| == |s'| <= 8 && Pack(s) == Pack(s')
    ensures s == s'
  {
    hide *;
    if s != [] {
      PackTop(s[1..]);
      PackTop(s'[1..]);
      PackIs(s);
      PackIs(s');
      WordParts(s[0], Pack(s[1..]));
      WordParts(s'[0], Pack(s'[1..]));
      PackInjective(s[1..], s'[1..]);
      assert s == [s[0]] + s[1..] && s' == [s'[0]] + s'[1..];
    }
  }

  /** Bytes that come in later can be taken in at once. */
  lemma StepTakes(x: bv64, b: octet, y: bv64)
    requires TopZero(y)
    ensures Step(Xor(x, Word(b, y)), 0) == Xor(Step(x, b), y)
  {
    hide Xor, Xor8, Low, Rest, Top, Word, Tab, TopZero;
    LowOfXor(x, b, y);
    RestOfXor(x, b, y);
    XorZero(x, Xor8(Low(x), b));
    XorAssoc(Tab(Xor8(Low(x), b)), Rest(x), y);
  }

  /** Up to eight bytes act on the state like as many zero bytes on the state combined with all of them. */
  lemma {:induction false} CrcOfWindow(crc: bv64, s: seq<octet>)
    requires |s| <= 8
    ensures Crc(crc, s) == Zeros(Xor(crc, Pack(s)), |s|)
    decreases |s|
  {
    hide Xor, Xor8, Low, Rest, Top, Word, Tab, TopZero, Step;
    if s == [] {
      XorZero(crc, 0);
    } else {
      PackTop(s[1..]);
      PackIs(s);
      hide Pack;
      StepTakes(crc, s[0], Pack(s[1..]));
      CrcOfWindow(Step(crc, s[0]), s[1..]);
    }
  }

  lemma {:induction false} ZerosInjective(x: bv64, y: bv64, n: nat)
    requires Zeros(x, n) == Zeros(y, n)
    ensures x == y
    decreases n
  {
    hide Step;
    if n > 0 {
      ZerosInjective(Step(x, 0), Step(y, 0), n - 1);
      StepInjectiveInState(x, y, 0);
    }
  }

  /** Two windows of up to eight bytes with the same checksum are the same. */
  lemma WindowInjective(crc: bv64, s: seq<octet>, s': seq<octet>)
    requires |s| == |s'| <= 8 && Crc(crc, s) == Crc(crc, s')
    ensures s == s'
  {
    hide *;
    CrcOfWindow(crc, s);
    CrcOfWindow(crc, s');
    ZerosInjective(Xor(crc, Pack(s)), Xor(crc, Pack(s')), |s|);
    XorCancels(crc, Pack(s), Pack(s'));
    PackInjective(s, s');
  }

  // ---- whole messages

  /** Two messages that differ only within eight bytes in a row have different checksums. */
  lemma DifferenceShows(crc: bv64, p: seq<octet>, q: seq<octet>, at: nat)
    requires SameOutside(p, q, at) && Crc(crc, p) == Crc(crc, q)
    ensures p == q
  {
    hide Crc, Step;
    var end := if at + 8 <= |p| then at + 8 else |p|;
    assert |p| == |q| && at <= end <= |p|;
    SameParts(p, q, at);
    hide *;
    SplitAt(p, at, end);
    SplitAt(q, at, end);
    CrcConcat(crc, p[..at], p[at..end]);
    CrcConcat(crc, q[..at], q[at..end]);
    CrcConcat(crc, p[..at] + p[at..end], p[end..]);
    CrcConcat(crc, q[..at] + q[at..end], q[end..]);
    CrcInjectiveInState(Crc(Crc(crc, p[..at]), p[at..end]), Crc(Crc(crc, p[..at]), q[at..end]), p[end..]);
    WindowInjective(Crc(crc, p[..at]), p[at..end], q[at..end]);
  }

  /** The messages are of one length and agree except, at most, in the eight bytes from `at` on. */
  ghost predicate SameOutside(p: seq<octet>, q: seq<octet>, at: nat) {
    |p| == |q| && at <= |p| && forall i :: 0 <= i < |p| && !(at <= i < at + 8) ==> p[i] == q[i]
  }

  lemma SplitAt(p: seq<octet>, at: nat, end: nat)
    requires at <= end <= |p|
    ensures p == p[..at] + p[at..end] + p[end..]
  {
  }

  lemma SameParts(p: seq<octet>, q: seq<octet>, at: nat)
    requires SameOutside(p, q, at)
    ensures p[..at] == q[..at]
    ensures var end := if at + 8 <= |p| then at + 8 else |p|; p[end..] == q[end..]
  {
  }

  // ---- rio.h

  /** A stream on a buffer, with its running checksum when one is kept (`update_cksum`). */
  class Rio {
    var buffer: seq<octet>
    var pos: nat
    var cksum: bv64
    const sums: bool

    constructor (s: seq<octet>, sums: bool)
      ensures buffer == s && pos == 0 && cksum == 0 && this.sums == sums
    {
      buffer, pos, cksum, this.sums := s, 0, 0, sums;
    }

    /** `rioWrite`. */
    method Write(buf: seq<octet>)
      modifies this
      ensures buffer == old(buffer) + buf && pos == old(pos) + |buf|
      ensures cksum == if sums then Crc(old(cksum), buf) else old(cksum)
    {
      if sums { cksum := Crc64(cksum, buf); }
      buffer := buffer + buf;
      pos := pos + |buf|;
    }

    /** `rioRead`. */
    method Read(len: nat) returns (ok: bool, buf: seq<octet>)
      requires pos <= |buffer|
      modifies this`pos, this`cksum
      ensures ok <==> old(pos) + len <= |buffer|
      ensures ok ==> buf == buffer[old(pos)..old(pos) + len] && pos == old(pos) + len
      ensures cksum == if sums && ok then Crc(old(cksum), buf) else old(cksum)
      ensures !ok ==> pos == old(pos)
    {
      if |buffer| - pos < len { return false, []; }
      ok, buf := true, buffer[pos..pos + len];
      pos := pos + len;
      if sums { cksum := Crc64(cksum, buf); }
    }
  }

  /** A writer's checksum is that of the stream, whatever the chunks. */
  method WriteAll(chunks: seq<seq<octet>>) returns (w: Rio)
    ensures fresh(w) && w.buffer == Join(chunks) && w.cksum == Crc(0, Join(chunks))
  {
    hide Crc;
    w := new Rio([], true);
    CrcNothing(0);
    var i := 0;
    while i < |chunks|
      invariant i <= |chunks| && fresh(w) && w.buffer == Join(chunks[..i]) && w.cksum == Crc(0, w.buffer) && w.sums
    {
      assert chunks[..i + 1][..i] == chunks[..i];
      CrcConcat(0, w.buffer, chunks[i]);
      w.Write(chunks[i]);
      i := i + 1;
    }
    assert chunks[..i] == chunks;
  }

  /** A reader's checksum is that of what it has read, whatever the chunks. */
  method ReadAll(s: seq<octet>, lens: seq<nat>) returns (r: Rio)
    requires Total(lens) <= |s|
    ensures fresh(r) && r.buffer == s && r.pos == Total(lens) && r.cksum == Crc(0, s[..r.pos])
  {
    hide Crc;
    r := new Rio(s, true);
    CrcNothing(0);
    assert s[..0] == [];
    var j := 0;
    while j < |lens|
      invariant j <= |lens| && fresh(r) && r.buffer == s && r.sums
      invariant r.pos == Total(lens[..j]) <= |s| && r.cksum == Crc(0, s[..r.pos])
    {
      TotalStep(lens, j);
      ghost var pos := r.pos;
      assert s[..pos + lens[j]] == s[..pos] + s[pos..pos + lens[j]];
      CrcConcat(0, s[..pos], s[pos..pos + lens[j]]);
      var ok, buf := r.Read(lens[j]);
      j := j + 1;
    }
    assert lens[..j] == lens;
  }

  /** A reader of what a writer wrote ends with the writer's checksum, whatever the chunks of either. */
  method Chunked(chunks: seq<seq<octet>>, lens: seq<nat>) returns (w: Rio, r: Rio)
    requires Total(lens) == |Join(chunks)|
    ensures w.buffer == Join(chunks) == r.buffer && r.pos == |r.buffer| && r.cksum == w.cksum == Crc(0, w.buffer)
  {
    hide Crc;
    w := WriteAll(chunks);
    r := ReadAll(w.buffer, lens);
    assert r.buffer[..r.pos] == r.buffer;
  }

  lemma CrcNothing(crc: bv64)
    ensures Crc(crc, []) == crc
  {
  }

  lemma TotalStep(lens: seq<nat>, j: nat)
    requires j < |lens|
    ensures Total(lens[..j]) + lens[j] == Total(lens[..j + 1]) <= Total(lens)
  {
    assert lens[..j + 1][..j] == lens[..j];
    TotalGrows(lens, j + 1);
  }

  function Total(lens: seq<nat>): nat {
    if lens == [] then 0 else Total(lens[..|lens| - 1]) + lens[|lens| - 1]
  }

  lemma {:induction false} TotalGrows(lens: seq<nat>, j: nat)
    requires j <= |lens|
    ensures Total(lens[..j]) <= Total(lens)
    decreases |lens|
  {
    if j < |lens| {
      TotalGrows(lens[..|lens| - 1], j);
      assert lens[..|lens| - 1][..j] == lens[..j];
    } else {
      assert lens[..j] == lens;
    }
  }

  // ---- migrate.c

  /** A word as eight bytes, the lowest first. */
  function WordBytes(x: bv64, n: nat): (r: seq<octet>)
    ensures |r| == n
    decreases n
  {
    if n == 0 then [] else [Low(x)] + WordBytes(Rest(x), n - 1)
  }

  const VERSION_BYTES: seq<octet> := [(RDB_VERSION & 0xff) as octet, ((RDB_VERSION >> 8) & 0xff) as octet]

  function Payload(body: seq<octet>): (p: seq<octet>)
    ensures |p| == |body| + 10
  {
    body + VERSION_BYTES + WordBytes(Crc(0, body + VERSION_BYTES), 8)
  }

  /** `createDumpPayload`, for an object serialized as `body`. */
  method CreateDumpPayload(body: seq<octet>) returns (payload: seq<octet>)
    ensures payload == Payload(body)
  {
    hide Crc, WordBytes;
    payload := body + VERSION_BYTES;
    var crc := Crc64(0, payload);
    payload := payload + WordBytes(crc, 8);
  }

  /** `verifyDumpPayload`: it accepts what `createDumpPayload` can have made, and nothing else. */
  method VerifyDumpPayload(p: seq<octet>) returns (ok: bool)
    ensures ok <==> |p| >= 10 && p == Payload(p[..|p| - 10])
    ensures ok <==> exists body :: p == Payload(body)
  {
    hide Crc, WordBytes;
    if |p| < 10 { return false; }
    var footer := p[|p| - 10..];
    PayloadParts(p);
    var rdbver := ((footer[1] as bv16) << 8) | (footer[0] as bv16);
    VersionIs(footer[0], footer[1]);
    if rdbver != RDB_VERSION { return false; }
    var crc := Crc64(0, p[..|p| - 8]);
    ok := WordBytes(crc, 8) == footer[2..];
  }

  /** A payload is made of its body exactly when version and checksum are right. */
  lemma PayloadParts(p: seq<octet>)
    requires |p| >= 10
    ensures p == Payload(p[..|p| - 10])
       <==> [p[|p| - 10..][0], p[|p| - 10..][1]] == VERSION_BYTES
            && WordBytes(Crc(0, p[..|p| - 8]), 8) == p[|p| - 10..][2..]
    ensures forall body :: p == Payload(body) ==> body == p[..|p| - 10]
  {
    hide Crc, WordBytes;
    var body := p[..|p| - 10];
    if [p[|p| - 10], p[|p| - 9]] == VERSION_BYTES {
      assert p[..|p| - 8] == body + VERSION_BYTES;
      assert p == p[..|p| - 8] + p[|p| - 8..];
    }
  }

  lemma VersionIs(lo: octet, hi: octet)
    ensures ((hi as bv16) << 8) | (lo as bv16) == RDB_VERSION <==> [lo, hi] == VERSION_BYTES
  {
    assert ((hi as bv16) << 8) | (lo as bv16) == 6 <==> lo == 6 && hi == 0;
  }

  // ---- damaged payloads

  function Rests(x: bv64, n: nat): bv64
    decreases n
  {
    if n == 0 then x else Rests(Rest(x), n - 1)
  }

  lemma EightRests(x: bv64)
    ensures Rests(x, 8) == 0
  {
    var y := Rest(Rest(Rest(Rest(x))));
    assert Rests(x, 8) == Rests(y, 4) by {
      hide Rest;
      assert Rests(x, 8) == Rests(Rest(Rest(x)), 6) == Rests(y, 4);
    }
    assert Rests(y, 4) == Rest(Rest(Rest(Rest(y)))) by {
      hide Rest;
      assert Rests(y, 4) == Rests(Rest(Rest(y)), 2);
    }
    hide Rests;
  }

  lemma StepOwnByte(x: bv64)
    ensures Step(x, Low(x)) == Rest(x)
  {
    TabIsLinear(0);
    assert Linear(0) == 0;
    assert Xor8(Low(x), Low(x)) == 0;
    hide Tab, Linear, Low, Rest;
  }

  lemma {:induction false} CrcOfOwnBytes(x: bv64, n: nat)
    ensures Crc(x, WordBytes(x, n)) == Rests(x, n)
    decreases n
  {
    hide Step, Low, Rest;
    if n > 0 {
      StepOwnByte(x);
      CrcOfOwnBytes(Rest(x), n - 1);
      assert WordBytes(x, n)[1..] == WordBytes(Rest(x), n - 1);
    }
  }

  /** With its own checksum appended a message has checksum zero: footer and message are one code word. */
  lemma OwnChecksum(m: seq<octet>)
    ensures Crc(0, m + WordBytes(Crc(0, m), 8)) == 0
  {
    hide *;
    CrcConcat(0, m, WordBytes(Crc(0, m), 8));
    CrcOfOwnBytes(Crc(0, m), 8);
    EightRests(Crc(0, m));
  }

  /** Of two payloads that differ only within eight bytes in a row, anywhere, at most one is accepted: a
      copy of a payload damaged in a burst of up to eight bytes is rejected, wherever it falls. */
  lemma DamageIsRejected(body: seq<octet>, q: seq<octet>, at: nat)
    requires SameOutside(Payload(body), q, at) && q != Payload(body)
    ensures forall body' :: q != Payload(body')
  {
    forall body' | q == Payload(body')
      ensures false
    {
      OwnChecksum(body + VERSION_BYTES);
      OwnChecksum(body' + VERSION_BYTES);
      hide Crc, WordBytes, Step, SameOutside;
      DifferenceShows(0, Payload(body), q, at);
    }
  }

  /** In particular a copy with exactly one byte changed. */
  lemma OneByteIsRejected(body: seq<octet>, at: nat, b: octet)
    requires at < |Payload(body)| && b != Payload(body)[at]
    ensures forall body' :: Payload(body)[at := b] != Payload(body')
  {
    hide Payload;
    assert Payload(body)[at := b][at] == b;
    DamageIsRejected(body, Payload(body)[at := b], at);
  }
}
