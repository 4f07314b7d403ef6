/** The multi bulk encoding of a command, shared by the AOF and the request protocol, and the printer of
    it (`catAppendOnlyGenericCommand`, rioWriteBulk*). */
module Resp {
  import opened Bytes
  import opened Decimal

  const CR: byte := 13
  const LF: byte := 10
  const STAR: byte := 42
  const DOLLAR: byte := 36
  const CRLF: bytes := [13, 10]

  type Argv = seq<bytes>

  function Line(prefix: byte, n: nat): (r: bytes)
    ensures |r| >= 4 && r[0] == prefix
  {
    [prefix] + Digits(n) + CRLF
  }

  function Bulk(a: bytes): (r: bytes)
    ensures |r| > 0
  {
    Line(DOLLAR, |a|) + a + CRLF
  }

  function Bulks(argv: Argv): bytes {
    if argv == [] then [] else Bulk(argv[0]) + Bulks(argv[1..])
  }

  function EncodeCommand(argv: Argv): (r: bytes)
    ensures |r| > 0
  {
    Line(STAR, |argv|) + Bulks(argv)
  }

  function EncodeAll(cmds: seq<Argv>): bytes {
    if cmds == [] then [] else EncodeCommand(cmds[0]) + EncodeAll(cmds[1..])
  }

  lemma {:induction false} BulksConcat(x: Argv, y: Argv)
    ensures Bulks(x + y) == Bulks(x) + Bulks(y)
  {
    if x == [] {
      assert x + y == y;
    } else {
      assert (x + y)[1..] == x[1..] + y;
      BulksConcat(x[1..], y);
      assert Bulk(x[0]) + (Bulks(x[1..]) + Bulks(y)) == (Bulk(x[0]) + Bulks(x[1..])) + Bulks(y);
    }
  }

  lemma {:induction false} EncodeAllConcat(x: seq<Argv>, y: seq<Argv>)
    ensures EncodeAll(x + y) == EncodeAll(x) + EncodeAll(y)
  {
    if x == [] {
      assert x + y == y;
    } else {
      assert (x + y)[1..] == x[1..] + y;
      EncodeAllConcat(x[1..], y);
      assert EncodeCommand(x[0]) + (EncodeAll(x[1..]) + EncodeAll(y))
          == (EncodeCommand(x[0]) + EncodeAll(x[1..])) + EncodeAll(y);
    }
  }

  lemma BulksOne(a: bytes)
    ensures Bulks([a]) == Bulk(a)
  {
    var argv: Argv := [a];
    assert argv[1..] == [] && Bulk(a) + [] == Bulk(a);
  }

  lemma BulksSnoc(argv: Argv, j: nat)
    requires j < |argv|
    ensures Bulks(argv[..j + 1]) == Bulks(argv[..j]) + Bulk(argv[j])
  {
    assert argv[..j + 1] == argv[..j] + [argv[j]];
    BulksConcat(argv[..j], [argv[j]]);
    BulksOne(argv[j]);
  }

  lemma EncodeOne(cmd: Argv)
    ensures EncodeAll([cmd]) == EncodeCommand(cmd)
  {
    var cmds: seq<Argv> := [cmd];
    assert cmds[1..] == [] && EncodeCommand(cmd) + [] == EncodeCommand(cmd);
  }

  /** `rioWriteBulkCount`: `prefix`, a number, CRLF. */
  method CatLine(dst: bytes, prefix: byte, n: nat) returns (r: bytes)
    ensures r == dst + Line(prefix, n)
  {
    var num := LongLongToString(n);
    r := dst + ([prefix] + num + CRLF);
  }

  /** `rioWriteBulkString`, and one turn of the loop of `catAppendOnlyGenericCommand`. */
  method CatBulk(dst: bytes, a: bytes) returns (r: bytes)
    ensures r == dst + Bulk(a)
  {
    r := CatLine(dst, DOLLAR, |a|);
    r := r + a;
    r := r + CRLF;
  }

  /** `catAppendOnlyGenericCommand`: appends the command to `dst`. */
  method CatCommand(dst: bytes, argv: Argv) returns (r: bytes)
    ensures r == dst + EncodeCommand(argv)
  {
    hide Bulk, Line;
    r := CatLine(dst, STAR, |argv|);
    ghost var start := r;
    var j := 0;
    while j < |argv|
      invariant j <= |argv| && r == start + Bulks(argv[..j])
    {
      BulksSnoc(argv, j);
      r := CatBulk(r, argv[j]);
      j := j + 1;
    }
    assert argv[..j] == argv;
  }
}
