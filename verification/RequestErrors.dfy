/** networking.c, requests that are refused: where a line ends, which counts and lengths are taken, and that
    nothing is executed after the first that is not. */
module RequestErrors {
  import opened Bytes
  import opened Decimal
  import opened Resp
  import opened Requests

  // ---- the end of a line

  /** The first CR, if no NUL comes before it. */
  lemma {:induction false} FindCRIff(b: bytes, n: nat)
    ensures FindCR(b) == Some(n) <==> n < |b| && b[n] == 13 && forall i :: 0 <= i < n ==> b[i] != 13 && b[i] != 0
  {
    if n < |b| && b[n] == 13 && forall i :: 0 <= i < n ==> b[i] != 13 && b[i] != 0 { FindCRIs(b, n); }
  }

  /** The first CR with an LF behind it, if no NUL comes before it. */
  lemma {:induction false} FindCRLFIff(b: bytes, n: nat)
    ensures FindCRLF(b) == Some(n) <==>
      && n + 2 <= |b| && b[n] == 13 && b[n + 1] == 10
      && forall i :: 0 <= i < n ==> b[i] != 0 && !(b[i] == 13 && b[i + 1] == 10)
  {
    if n == 0 {
    } else if |b| >= 2 {
      FindCRLFIff(b[1..], n - 1);
      var t := b[1..];
      assert forall i :: 0 <= i < |t| ==> t[i] == b[i + 1];
      if n + 2 <= |b| {
        if forall i :: 0 <= i < n ==> b[i] != 0 && !(b[i] == 13 && b[i + 1] == 10) {
          assert forall i :: 0 <= i < n - 1 ==> t[i] != 0 && !(t[i] == 13 && t[i + 1] == 10);
        }
        if FindCRLF(b) == Some(n) {
          forall i | 0 <= i < n
            ensures b[i] != 0 && !(b[i] == 13 && b[i + 1] == 10)
          {
            if i > 0 { assert t[i - 1] == b[i] && t[i] == b[i + 1]; }
          }
        }
      }
    }
  }

  // ---- counts and lengths

  /** A header line as a client sends it. */
  function Header(prefix: byte, number: int): bytes {
    [prefix] + Dec(number) + [13, 10]
  }

  lemma HeaderFound(prefix: byte, number: int, rest: bytes)
    requires LLONG_MIN <= number <= LLONG_MAX && prefix != 13 && prefix != 0
    ensures var b, nl := Header(prefix, number) + rest, |Header(prefix, number)| - 2;
      && b[0] == prefix && nl > 0 && FindCR(b) == Some(nl) && ParseLL(b[1..nl]) == Some(number)
      && b[nl + 2..] == rest && nl + 2 <= |b|
  {
    var b, nl := Header(prefix, number) + rest, |Header(prefix, number)| - 2;
    assert b[1..nl] == Dec(number);
    ParseLLDec(number);
    NoCR(number);
    hide Dec, ParseLL;
    forall i | 0 <= i < nl ensures b[i] != CR && b[i] != 0 {
      if i > 0 { assert b[i] == b[1..nl][i - 1]; }
    }
    FindCRIs(b, nl);
  }

  lemma NoCR(number: int)
    ensures forall i :: 0 <= i < |Dec(number)| ==> Dec(number)[i] != 13 && Dec(number)[i] != 0
  {
    hide Digits;
  }

  /** A count of arguments: with none there is no command and the next request follows, with more than 2^20
      the client is closed. */
  lemma CountAccepted(number: int, rest: bytes)
    requires LLONG_MIN <= number <= LLONG_MAX
    ensures var b := Header(42, number) + rest;
      Parse(Idle, b) == if number > 1048576 then Result(Closing, b, [])
                        else if number <= 0 then Parse(Idle, rest)
                        else Parse(Multibulk(number, -1, []), rest)
  {
    var b, nl := Header(42, number) + rest, |Header(42, number)| - 2;
    HeaderFound(42, number, rest);
    hide FindCR, ParseLL, Header, Parse;
    assert Piece(Idle, b) == Take(0, NEW_MULTIBULK, []) && b[0..] == b;
    ParseTakes(Idle, b, 0, NEW_MULTIBULK, []);
    var next := if number > 1048576 then Closing else if number <= 0 then Idle else Multibulk(number, -1, []);
    assert Piece(NEW_MULTIBULK, b) == Take(if number > 1048576 then 0 else nl + 2, next, []);
    ParseTakes(NEW_MULTIBULK, b, if number > 1048576 then 0 else nl + 2, next, []);
    ParseWaits(Closing, b);
    ThenThen([], [], Parse(next, if number > 1048576 then b else rest));
    ThenThen([], [], Parse(NEW_MULTIBULK, b));
  }

  /** The length of an argument: it has to be at least zero and at most 2^29, and a dollar in front of it. */
  lemma LengthAccepted(p: Parser, prefix: byte, number: int, rest: bytes)
    requires LLONG_MIN <= number <= LLONG_MAX && prefix != 13 && prefix != 0
    requires p.Multibulk? && p.multibulklen > 0 && p.bulklen < 0
    ensures var b := Header(prefix, number) + rest;
      Parse(p, b) == if prefix == 36 && 0 <= number <= 536870912 then Parse(p.(bulklen := number), rest)
                     else Result(Closing, b, [])
  {
    var b, nl := Header(prefix, number) + rest, |Header(prefix, number)| - 2;
    HeaderFound(prefix, number, rest);
    hide FindCR, ParseLL, Header, Parse;
    var ok := prefix == 36 && 0 <= number <= 536870912;
    var next := if ok then p.(bulklen := number) else Closing;
    assert Piece(p, b) == Take(if ok then nl + 2 else 0, next, []);
    ParseTakes(p, b, if ok then nl + 2 else 0, next, []);
    assert b[0..] == b;
    ParseWaits(Closing, b);
    ThenThen([], [], Parse(next, if ok then rest else b));
  }

  lemma TextFound(prefix: byte, text: bytes, rest: bytes)
    requires prefix != 13 && prefix != 0 && forall i :: 0 <= i < |text| ==> text[i] != 13 && text[i] != 0
    ensures var b, nl := [prefix] + text + [13, 10] + rest, |text| + 1;
      FindCR(b) == Some(nl) && nl + 2 <= |b| && b[1..nl] == text
  {
    var b, nl := [prefix] + text + [13, 10] + rest, |text| + 1;
    assert b[nl] == 13 && b[0] == prefix;
    assert forall i :: 0 < i < nl ==> b[i] == text[i - 1];
    FindCRIs(b, nl);
    hide FindCR;
  }

  /** Where a number has to be and none is, the client is closed. */
  lemma NoNumber(p: Parser, prefix: byte, text: bytes, rest: bytes)
    requires p == NEW_MULTIBULK || (p.Multibulk? && p.multibulklen > 0 && p.bulklen < 0)
    requires prefix != 13 && prefix != 0 && ParseLL(text).None?
    requires forall i :: 0 <= i < |text| ==> text[i] != 13 && text[i] != 0
    ensures var b := [prefix] + text + [13, 10] + rest; Parse(p, b) == Result(Closing, b, [])
  {
    var b := [prefix] + text + [13, 10] + rest;
    TextFound(prefix, text, rest);
    hide FindCR, ParseLL, Parse;
    assert Piece(p, b) == Take(0, Closing, []) && b[0..] == b;
    ParseTakes(p, b, 0, Closing, []);
    ParseWaits(Closing, b);
    ThenThen([], [], Parse(Closing, b));
  }

  /** A client that is closing executes nothing that comes later. */
  lemma NothingAfterError(p: Parser, a: bytes, b: bytes)
    requires Parse(p, a).p.Closing?
    ensures Parse(p, a + b).commands == Parse(p, a).commands && Parse(p, a + b).p.Closing?
  {
    var r := Parse(p, a);
    ParseResumes(p, a, b);
    ParseWaits(Closing, r.left + b);
    ThenCommands(r.commands, Result(Closing, r.left + b, []));
    assert r.commands + [] == r.commands;
    hide Parse, Then;
  }
}
