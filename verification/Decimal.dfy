/** Decimal numbers as text: `ll2string`, `string2ll` (util.c) and the C library's `strtol`, on which
    the AOF, the request protocol and RDB all rely. */
module Decimal {
  import opened Bytes

  const ZERO: byte := 48
  const MINUS: byte := 45
  const LLONG_MAX := 0x7fff_ffff_ffff_ffff
  const LLONG_MIN := -0x8000_0000_0000_0000

  predicate IsDigit(c: byte) {
    48 <= c <= 57
  }

  predicate AllDigits(b: bytes) {
    forall i :: 0 <= i < |b| ==> IsDigit(b[i])
  }

  function Digits(n: nat): (r: bytes)
    ensures |r| > 0 && AllDigits(r) && (r[0] == ZERO <==> n == 0)
    ensures n < 10 <==> |r| == 1
  {
    if n < 10 then [48 + n] else Digits(n / 10) + [48 + n % 10]
  }

  /** What `ll2string` prints. */
  function Dec(v: int): bytes {
    if v < 0 then [MINUS] + Digits(-v) else Digits(v)
  }

  /** The value of a string of digits, most significant first. */
  function Value(b: bytes): nat
    requires AllDigits(b)
  {
    if b == [] then 0 else Value(b[..|b| - 1]) * 10 + (b[|b| - 1] - 48)
  }

  lemma {:induction false} ValueDigits(n: nat)
    ensures Value(Digits(n)) == n
  {
    if n >= 10 {
      ValueDigits(n / 10);
      assert Digits(n)[..|Digits(n)| - 1] == Digits(n / 10);
    } else {
      assert Digits(n)[..0] == [];
    }
  }

  lemma {:induction false} ValuePositive(b: bytes)
    requires AllDigits(b) && |b| > 0 && b[0] != ZERO
    ensures Value(b) > 0
  {
    if |b| > 1 { ValuePositive(b[..|b| - 1]); }
  }

  /** A string of digits without leading zero is what its value prints as. */
  lemma {:induction false} DigitsValue(b: bytes)
    requires AllDigits(b) && |b| > 0 && (b[0] != ZERO || |b| == 1)
    ensures Digits(Value(b)) == b
  {
    if |b| == 1 {
      assert b[..0] == [];
    } else {
      var i := b[..|b| - 1];
      DigitsValue(i);
      ValuePositive(i);
      assert b == i + [b[|b| - 1]];
    }
  }

  /** `string2ll`: strict, canonical, within the range of a long long. */
  function ParseLL(b: bytes): Option<int> {
    if b == [ZERO] then Some(0)
    else
      var negative := b != [] && b[0] == MINUS;
      var d := if negative then b[1..] else b;
      if d == [] || d[0] == ZERO || !AllDigits(d) then None
      else if negative then (if Value(d) > -LLONG_MIN then None else Some(0 - Value(d)))
      else if Value(d) > LLONG_MAX then None else Some(Value(d))
  }

  /** `string2ll` accepts exactly what `ll2string` prints. */
  lemma ParseLLIffDec(b: bytes, v: int)
    ensures ParseLL(b) == Some(v) <==> LLONG_MIN <= v <= LLONG_MAX && b == Dec(v)
  {
    if LLONG_MIN <= v <= LLONG_MAX && b == Dec(v) { ParseLLDec(v); }
    if ParseLL(b) == Some(v) { ParsedIsDec(b, v); }
    hide ParseLL, Dec;
  }

  lemma ParsedIsDec(b: bytes, v: int)
    requires ParseLL(b) == Some(v)
    ensures LLONG_MIN <= v <= LLONG_MAX && b == Dec(v)
  {
    if b == [ZERO] {
      assert Dec(0) == [ZERO];
    } else {
      var d := if b[0] == MINUS then b[1..] else b;
      DigitsValue(d);
      ValuePositive(d);
      hide Digits, Value, AllDigits;
    }
  }

  lemma ParseLLDec(v: int)
    requires LLONG_MIN <= v <= LLONG_MAX
    ensures ParseLL(Dec(v)) == Some(v)
  {
    var n := if v < 0 then -v else v;
    ValueDigits(n);
    hide Digits, Value, AllDigits;
    var d := Digits(n);
    if v < 0 {
      assert ([MINUS] + d)[1..] == d;
    } else if v == 0 {
      assert d == [ZERO];
    }
  }

  /** The number of leading digits. */
  function DigitRun(b: bytes): (n: nat)
    ensures n <= |b| && AllDigits(b[..n]) && (n < |b| ==> !IsDigit(b[n]))
  {
    if b == [] || !IsDigit(b[0]) then 0
    else
      var n := 1 + DigitRun(b[1..]);
      assert forall i :: 0 < i < n ==> b[i] == b[1..][i - 1];
      n
  }

  predicate IsSpace(c: byte) {
    c == 32 || 9 <= c <= 13
  }

  /** `strtol` and `atoi`: leading white space, a sign, digits up to the first other byte. */
  function Strtol(b: bytes): int {
    if b != [] && IsSpace(b[0]) then Strtol(b[1..])
    else if b != [] && b[0] == MINUS then 0 - Value(b[1..][..DigitRun(b[1..])])
    else
      var d := if b != [] && b[0] == 43 then b[1..] else b;
      Value(d[..DigitRun(d)])
  }

  lemma {:induction false} DigitRunIs(s: bytes, n: nat)
    requires n <= |s| && AllDigits(s[..n]) && (n < |s| ==> !IsDigit(s[n]))
    ensures DigitRun(s) == n
  {
    if n > 0 {
      assert s[0] == s[..n][0];
      assert s[1..][..n - 1] == s[..n][1..];
      DigitRunIs(s[1..], n - 1);
    }
  }

  /** A printed number followed by something else is read back. */
  lemma StrtolReads(n: nat, c: byte, rest: bytes)
    requires !IsDigit(c)
    ensures Strtol(Digits(n) + [c] + rest) == n
  {
    var d := Digits(n);
    var s := d + [c] + rest;
    assert s[0] == d[0] && IsDigit(d[0]);
    assert s[..|d|] == d;
    DigitRunIs(s, |d|);
    ValueDigits(n);
  }

  lemma AfterSpace(c: byte, t: bytes)
    requires c in {9, 10, 11, 12, 13, 32}
    ensures Strtol([c] + t) == Strtol(t)
  {
    assert ([c] + t)[1..] == t;
    hide DigitRun, Value;
  }

  lemma AfterSign(c: byte, t: bytes)
    requires c == 43 || c == 45
    ensures Strtol([c] + t) == if c == 45 then 0 - Value(t[..DigitRun(t)]) else Value(t[..DigitRun(t)])
  {
    assert ([c] + t)[1..] == t;
    hide DigitRun, Value;
  }

  lemma NoSign(d: bytes, tail: bytes)
    requires AllDigits(d) && (d == [] ==> tail == [] || tail[0] !in {9, 10, 11, 12, 13, 32, 43, 45})
    ensures Strtol([] + (d + tail)) == Value((d + tail)[..DigitRun(d + tail)])
  {
    var t := d + tail;
    assert [] + t == t && (d != [] ==> t[0] == d[0] && IsDigit(d[0]));
    hide DigitRun, Value;
  }

  lemma DigitsEnd(d: bytes, tail: bytes)
    requires AllDigits(d) && (tail == [] || !IsDigit(tail[0]))
    ensures (d + tail)[..DigitRun(d + tail)] == d
  {
    assert (d + tail)[..|d|] == d;
    DigitRunIs(d + tail, |d|);
  }

  /** White space, a sign, digits and then something else: the digits and the sign are what counts. */
  lemma {:induction false} StrtolIs(spaces: bytes, sign: bytes, d: bytes, tail: bytes)
    requires forall i :: 0 <= i < |spaces| ==> spaces[i] in {9, 10, 11, 12, 13, 32}
    requires sign in {[], [43], [45]} && AllDigits(d) && (tail == [] || !IsDigit(tail[0]))
    requires sign == d == [] ==> tail == [] || tail[0] !in {9, 10, 11, 12, 13, 32, 43, 45}
    ensures Strtol(spaces + sign + d + tail) == if sign == [45] then 0 - Value(d) else Value(d)
  {
    hide Value, DigitRun, AllDigits;
    if spaces != [] {
      StrtolIs(spaces[1..], sign, d, tail);
      AfterSpace(spaces[0], spaces[1..] + sign + d + tail);
      assert [spaces[0]] + (spaces[1..] + sign + d + tail) == spaces + sign + d + tail;
    } else {
      DigitsEnd(d, tail);
      assert [] + sign + d + tail == sign + (d + tail);
      if sign != [] { AfterSign(sign[0], d + tail); } else { NoSign(d, tail); }
    }
  }

  lemma SignedRead(n: nat, tail: bytes)
    requires tail == [] || !IsDigit(tail[0])
    ensures Strtol([MINUS] + (Digits(n) + tail)) == 0 - n && Strtol([] + (Digits(n) + tail)) == n
  {
    var d := Digits(n);
    ValueDigits(n);
    DigitsEnd(d, tail);
    hide *;
    AfterSign(MINUS, d + tail);
    NoSign(d, tail);
  }

  /** A printed number of either sign is read back, alone or followed by something else. */
  lemma StrtolDec(v: int, tail: bytes)
    requires tail == [] || !IsDigit(tail[0])
    ensures Strtol(Dec(v) + tail) == v && Strtol(Dec(v)) == v
  {
    SignAndDigits(v, tail);
    SignAndDigits(v, []);
    SignedRead(if v < 0 then -v else v, tail);
    SignedRead(if v < 0 then -v else v, []);
    hide *;
    assert Dec(v) + [] == Dec(v);
  }

  lemma SignAndDigits(v: int, tail: bytes)
    ensures Dec(v) + tail == if v < 0 then [MINUS] + (Digits(-v) + tail) else [] + (Digits(v) + tail)
  {
    hide Digits;
  }

  /** The digits are those of the decimal system, and the minus sign is in front. */
  lemma PrintedNumbers()
    ensures Dec(0) == Ascii("0") && Dec(9041) == Ascii("9041") && Dec(-120) == Ascii("-120")
  {
    assert Digits(904) == Digits(90) + [52] && Digits(90) == [57, 48];
    assert Digits(12) == [49, 50];
  }

  function Pow10(k: nat): nat {
    if k == 0 then 1 else 10 * Pow10(k - 1)
  }

  lemma {:induction false} DigitsLength(n: nat, k: nat)
    requires k >= 1 && n < Pow10(k)
    ensures |Digits(n)| <= k
    decreases k
  {
    if n >= 10 {
      assert Pow10(1) == 10 * Pow10(0) == 10;
      DigitsLength(n / 10, k - 1);
    }
  }

  /** A number below LLONG_MAX has at most 19 digits: it fits the 32-byte buffers of the code. */
  lemma LongLongDigits(n: nat)
    requires n <= LLONG_MAX
    ensures |Digits(n)| <= 19
  {
    assert Pow10(5) == 100000;
    assert Pow10(10) == 100000 * Pow10(5);
    assert Pow10(15) == 100000 * Pow10(10);
    assert Pow10(19) == 10000 * Pow10(15);
    DigitsLength(n, 19);
  }

  /** What is left of the digits of `v` once the last one has been printed. */
  function Leading(v: nat): bytes {
    if v > 0 then Digits(v) else []
  }

  lemma LeadingStep(v: nat)
    requires v > 0
    ensures Leading(v) == Leading(v / 10) + [48 + v % 10]
  {
  }

  lemma FirstStep(v: nat)
    ensures Digits(v) == Leading(v / 10) + [48 + v % 10] && Leading(0) == []
  {
  }

  /** `ll2string`: digits from the last to the first, then the sign. */
  method LongLongToString(value: int) returns (s: bytes)
    ensures s == Dec(value)
  {
    var v: nat := if value < 0 then -value else value;
    ghost var all := Digits(v);
    hide Digits, Leading, AllDigits;
    s := [48 + v % 10];
    FirstStep(v);
    v := v / 10;
    while v > 0
      invariant all == Leading(v) + s
    {
      LeadingStep(v);
      ConcatAssoc(Leading(v / 10), [48 + v % 10], s);
      s := [48 + v % 10] + s;
      v := v / 10;
    }
    assert all == s;
    if value < 0 { s := [MINUS] + s; }
  }
}
