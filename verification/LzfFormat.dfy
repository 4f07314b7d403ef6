/** The LZF stream format (lzf_c.c, the comment above `lzf_compress`; lzf_d.c):
    a sequence of literal runs and back references, and the decoder of it. */
module LzfFormat {
  import opened Bytes

  const MAX_LIT := 32
  const MAX_OFF := 8192
  const MAX_REF := 264

  /** `off` is the distance to the source minus one, `len` the number of octets copied. */
  datatype Token = Literal(run: bytes) | BackRef(off: nat, len: nat)

  /** Every field of the token fits the bits the format gives it. */
  predicate Fits(t: Token) {
    match t
    case Literal(run) => 1 <= |run| <= MAX_LIT
    case BackRef(off, len) => off < MAX_OFF && 3 <= len <= MAX_REF
  }

  ghost predicate AllFit(ts: seq<Token>) {
    forall i :: 0 <= i < |ts| ==> Fits(ts[i])
  }

  function EncodeToken(t: Token): (r: bytes)
    requires Fits(t)
  {
    match t
    case Literal(run) => [|run| - 1] + run
    case BackRef(off, len) =>
      if len - 2 < 7 then [off / 256 + (len - 2) * 32, off % 256]
      else [off / 256 + 7 * 32, len - 2 - 7, off % 256]
  }

  ghost function Encode(ts: seq<Token>): (r: bytes)
    requires AllFit(ts)
  {
    if ts == [] then [] else EncodeToken(ts[0]) + Encode(ts[1..])
  }

  /** Appends `n` octets, one at a time, each read `off + 1` positions back: the source
      may overlap what is being written. */
  function Copy(o: bytes, off: nat, n: nat): (r: bytes)
    requires off < |o|
    ensures |r| == |o| + n && r[..|o|] == o
    decreases n
  {
    if n == 0 then o else Copy(o + [o[|o| - 1 - off]], off, n - 1)
  }

  /** What a decoder that has produced `o` must have produced after `ts`. */
  ghost predicate Applicable(o: bytes, ts: seq<Token>)
    decreases |ts|
  {
    ts == [] || ((ts[0].BackRef? ==> ts[0].off < |o|) && Applicable(Apply(o, ts[0]), ts[1..]))
  }

  function Apply(o: bytes, t: Token): (r: bytes)
    requires t.BackRef? ==> t.off < |o|
    ensures |o| <= |r|
  {
    match t
    case Literal(run) => o + run
    case BackRef(off, len) => Copy(o, off, len)
  }

  ghost function Expand(o: bytes, ts: seq<Token>): (r: bytes)
    requires Applicable(o, ts)
    ensures |o| <= |r|
    decreases |ts|
  {
    if ts == [] then o else Expand(Apply(o, ts[0]), ts[1..])
  }

  /** The decoder of lzf_d.c on values: `s` is what is left of the input, `o` what has been
      written, `limit` the size of the output buffer. `None` is the C function's 0. */
  function Decode(s: bytes, o: bytes, limit: nat): (r: Option<bytes>)
    requires |s| > 0
    decreases |s|
  {
    var ctrl := s[0];
    if ctrl < 32 then
      if |o| + ctrl + 1 > limit || ctrl + 2 > |s| then None
      else Resume(s[ctrl + 2..], o + s[1..ctrl + 2], limit, |s|)
    else
      var head := if ctrl / 32 == 7 then 3 else 2;
      if |s| < head then None
      else
        var len := if ctrl / 32 == 7 then 7 + s[1] else ctrl / 32;
        var off := ctrl % 32 * 256 + s[head - 1];
        if |o| + len + 2 > limit || off >= |o| then None
        else Resume(s[head..], Copy(o, off, len + 2), limit, |s|)
  }

  function Resume(s: bytes, o: bytes, limit: nat, ghost bound: nat): (r: Option<bytes>)
    requires |s| < bound
    decreases bound, 0
  {
    if s == [] then Some(o) else Decode(s, o, limit)
  }

  /** The bytes from `i` on are untouched. */
  ghost predicate SameFrom(s: bytes, t: bytes, i: nat) {
    |s| == |t| && forall k :: i <= k < |s| ==> s[k] == t[k]
  }

  lemma SameFromTrans(s: bytes, t: bytes, u: bytes, i: nat, j: nat)
    requires SameFrom(s, t, i) && SameFrom(t, u, j)
    ensures forall k :: k >= i && k >= j ==> SameFrom(s, u, k)
  {
  }

  /** The last token of an encoding can be split off. */
  lemma {:induction false} EncodeSnoc(ts: seq<Token>, t: Token)
    requires AllFit(ts) && Fits(t)
    ensures AllFit(ts + [t])
    ensures Encode(ts + [t]) == Encode(ts) + EncodeToken(t)
  {
    if ts == [] {
      assert [] + [t] == [t];
      assert Encode([t]) == EncodeToken(t) + [];
    } else {
      assert (ts + [t])[1..] == ts[1..] + [t];
      EncodeSnoc(ts[1..], t);
      assert EncodeToken(ts[0]) + (Encode(ts[1..]) + EncodeToken(t))
          == (EncodeToken(ts[0]) + Encode(ts[1..])) + EncodeToken(t);
    }
  }

  lemma {:induction false} ExpandSnoc(o: bytes, ts: seq<Token>, t: Token)
    requires Applicable(o, ts)
    requires t.BackRef? ==> t.off < |Expand(o, ts)|
    ensures Applicable(o, ts + [t])
    ensures Expand(o, ts + [t]) == Apply(Expand(o, ts), t)
    decreases |ts|
  {
    if ts == [] {
      assert [] + [t] == [t];
    } else {
      assert (ts + [t])[1..] == ts[1..] + [t];
      ExpandSnoc(Apply(o, ts[0]), ts[1..], t);
    }
  }

  /** The byte at `k` equals the one `d` places before it. */
  ghost predicate SameAt(s: bytes, k: nat, d: nat) {
    d <= k < |s| && s[k] == s[k - d]
  }

  ghost predicate Periodic(s: bytes, lo: nat, hi: nat, d: nat) {
    forall k :: lo <= k < hi ==> SameAt(s, k, d)
  }

  /** A byte string that repeats itself at distance `off + 1` is what the copy produces. */
  lemma {:induction false} CopyIsPeriodic(s: bytes, i: nat, off: nat, n: nat)
    requires off < i && i + n <= |s|
    requires Periodic(s, i, i + n, off + 1)
    ensures Copy(s[..i], off, n) == s[..i + n]
    decreases n
  {
    if n > 0 {
      assert SameAt(s, i, off + 1);
      assert s[..i] + [s[i - 1 - off]] == s[..i + 1];
      CopyIsPeriodic(s, i + 1, off, n - 1);
    }
  }

  lemma CopyStep(o: bytes, off: nat, n: nat)
    requires off < |o|
    ensures Copy(o, off, n) == if n == 0 then o else Copy(o + [o[|o| - 1 - off]], off, n - 1)
  {
  }

  /** The fields of a back reference can be read back from its bytes. */
  lemma ReferenceFields(off: nat, len: nat)
    requires Fits(BackRef(off, len))
    ensures var e := EncodeToken(BackRef(off, len));
            && |e| == (if len - 2 < 7 then 2 else 3) && e[0] >= 32
            && e[0] as int / 32 == (if len - 2 < 7 then len - 2 else 7)
            && e[0] as int % 32 * 256 + e[|e| - 1] == off
            && (|e| == 3 ==> len == e[1] as int + 9)
  {
  }

  /** One token at the head of the stream is decoded to exactly its effect. */
  lemma DecodeToken(t: Token, rest: bytes, o: bytes, limit: nat)
    requires Fits(t) && (t.BackRef? ==> t.off < |o|)
    requires |Apply(o, t)| <= limit
    ensures Decode(EncodeToken(t) + rest, o, limit)
         == Resume(rest, Apply(o, t), limit, |EncodeToken(t) + rest|)
  {
    var e := EncodeToken(t);
    var s := e + rest;
    assert s[|e|..] == rest;
    match t {
      case Literal(run) =>
        DecodeRun(s, o, limit);
        assert s[1..|e|] == run;
      case BackRef(off, len) =>
        ReferenceFields(off, len);
        hide Decode, EncodeToken;
        assert s[0] == e[0] && s[|e| - 1] == e[|e| - 1] && (|e| == 3 ==> s[1] == e[1]);
        DecodeBack(s, o, limit, |e|, len - 2, off);
    }
  }

  /** Decoding an encoding gives what its tokens stand for, whenever it fits the buffer. */
  lemma {:induction false} DecodeEncode(ts: seq<Token>, o: bytes, limit: nat)
    requires AllFit(ts) && ts != [] && Applicable(o, ts)
    requires |Expand(o, ts)| <= limit
    ensures |Encode(ts)| > 0
    ensures Decode(Encode(ts), o, limit) == Some(Expand(o, ts))
    decreases |ts|
  {
    var rest := Encode(ts[1..]);
    DecodeToken(ts[0], rest, o, limit);
    if ts[1..] != [] {
      DecodeEncode(ts[1..], Apply(o, ts[0]), limit);
    }
  }

  /** The decoder on a literal run and on a back reference, field by field. */
  lemma DecodeRun(s: bytes, o: bytes, limit: nat)
    requires |s| > 0 && s[0] < 32
    ensures Decode(s, o, limit)
         == if |o| + s[0] + 1 > limit || s[0] + 2 > |s| then None
            else Resume(s[s[0] + 2..], o + s[1..s[0] + 2], limit, |s|)
  {
  }

  lemma DecodeBack(s: bytes, o: bytes, limit: nat, head: nat, len: nat, off: nat)
    requires |s| > 0 && s[0] >= 32
    requires head == if s[0] as int / 32 == 7 then 3 else 2
    requires head <= |s| ==> len == (if s[0] as int / 32 == 7 then 7 + s[1] else s[0] as int / 32)
    requires head <= |s| ==> off == s[0] as int % 32 * 256 + s[head - 1]
    ensures Decode(s, o, limit)
         == if |s| < head || |o| + len + 2 > limit || off >= |o| then None
            else Resume(s[head..], Copy(o, off, len + 2), limit, |s|)
  {
  }
}
