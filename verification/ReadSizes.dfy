/** networking.c, how much `readQueryFromClient` reads at a time (lines 1027-1040), and why the checks
    against long lines (804, 860, 900) spare the requests they are not meant for. */
module ReadSizes {
  import opened Bytes
  import opened Decimal
  import opened Resp
  import opened Requests

  const INLINE_MAX_SIZE := 1024 * 64  // REDIS_INLINE_MAX_SIZE
  const MBULK_BIG_ARG := 1024 * 32    // REDIS_MBULK_BIG_ARG
  const IOBUF_LEN := 1024 * 16        // REDIS_IOBUF_LEN
  const MAX_QUERYBUF_LEN := 1024 * 1024 * 1024  // REDIS_MAX_QUERYBUF_LEN

  /** Past the length line of a big argument. */
  predicate InBigArgument(p: Parser) {
    p.Multibulk? && p.multibulklen > 0 && p.bulklen >= MBULK_BIG_ARG
  }

  /** The buffer holds at most the big argument that is being read, and its CRLF. */
  predicate OnArgument(p: Parser, size: nat) {
    InBigArgument(p) && size <= p.bulklen + 2
  }

  /** From `p` on, `b` is parsed as complete requests, and no inline request is too long. */
  ghost predicate Tame(p: Parser, b: bytes)
    decreases |b|, Rank(p)
  {
    && (p.Multibulk? ==> p.bulklen <= MAX_BULK)
    && match Piece(p, b)
       case Wait => p.Idle?
       case Take(n, next, _) => (p.Inline? ==> n <= INLINE_MAX_SIZE - IOBUF_LEN) && Tame(next, b[n..])
  }

  lemma TameTakes(p: Parser, b: bytes, n: nat, next: Parser, command: Argv)
    requires Piece(p, b) == Take(n, next, command) && !p.Inline? && (p.Multibulk? ==> p.bulklen <= MAX_BULK)
    requires Tame(next, b[n..])
    ensures Tame(p, b)
  {
  }

  /** After parsing what is there the rest is as tame as the whole was. */
  lemma {:induction false} TameResumes(p: Parser, a: bytes, b: bytes)
    requires Tame(p, a + b)
    ensures var r := Parse(p, a); Tame(r.p, r.left + b)
    decreases |a|, Rank(p)
  {
    match Piece(p, a)
    case Wait =>
    case Take(n, next, command) =>
      PieceStable(p, a, b);
      assert (a + b)[n..] == a[n..] + b;
      TameResumes(next, a[n..], b);
  }

  // ---- what is left waiting is short

  lemma {:induction false} FindCRWithin(a: bytes, b: bytes)
    requires FindCR(a + b).Some? && FindCR(a + b).value < |a|
    ensures FindCR(a) == FindCR(a + b)
  {
    if a[0] != CR {
      assert (a + b)[1..] == a[1..] + b;
      FindCRWithin(a[1..], b);
    }
  }

  lemma {:induction false} FindCRLFWithin(a: bytes, b: bytes)
    requires FindCRLF(a + b).Some? && FindCRLF(a + b).value + 2 <= |a|
    ensures FindCRLF(a) == FindCRLF(a + b)
  {
    if !(a[0] == CR && a[1] == LF) {
      assert (a + b)[1..] == a[1..] + b;
      FindCRLFWithin(a[1..], b);
    }
  }

  /** A number that `string2ll` accepts has at most 20 bytes and a sign. */
  lemma NumberShort(b: bytes)
    requires ParseLL(b).Some?
    ensures |b| <= 21
  {
    var v := ParseLL(b).value;
    ParseLLIffDec(b, v);
    var n: nat := if v < 0 then -v else v;
    if n >= 10 { LongLongDigits(n / 10); }
  }

  /** Waiting for the rest of a header line of a tame stream. */
  lemma HeaderShort(p: Parser, a: bytes, b: bytes)
    requires Tame(p, a + b) && Piece(p, a).Wait? && p.Multibulk? && (p.multibulklen == 0 || p.bulklen < 0)
    ensures |a| <= 23
  {
    var nl := FindCR(a + b).value;
    NumberShort((a + b)[1..nl]);
    if nl + 2 <= |a| { FindCRWithin(a, b); }
  }

  /** A tame stream never leaves more waiting than one read and a line may hold, but for a big argument. */
  lemma WaitingFits(p: Parser, a: bytes, b: bytes)
    requires Tame(p, a + b) && Piece(p, a).Wait?
    ensures !p.Closing?
    ensures if InBigArgument(p) then |a| < p.bulklen + 2 else |a| + IOBUF_LEN <= INLINE_MAX_SIZE
  {
    match p
    case Closing =>
    case Idle =>
    case Inline => if FindCRLF(a + b).value + 2 <= |a| { FindCRLFWithin(a, b); }
    case Multibulk(n, bulklen, _) => if n == 0 || bulklen < 0 { HeaderShort(p, a, b); }
  }

  // ---- printed commands are tame

  lemma BulkTame(p: Parser, a: bytes, rest: bytes)
    requires p.Multibulk? && p.multibulklen > 0 && p.bulklen == -1 && |a| <= MAX_BULK
    requires Tame(AfterBulk(p, a).0, rest)
    ensures Tame(p, Bulk(a) + rest)
  {
    BulkPieces(p, a, rest);
    hide Piece, Tame, Bulk, AfterBulk;
    var p1 := p.(bulklen := |a|);
    TameTakes(p1, a + CRLF + rest, |a| + 2, AfterBulk(p, a).0, AfterBulk(p, a).1);
    TameTakes(p, Bulk(a) + rest, |Line(DOLLAR, |a|)|, p1, []);
  }

  lemma {:induction false} BulksTame(done: Argv, argv: Argv, rest: bytes)
    requires argv != [] && (forall i :: 0 <= i < |argv| ==> |argv[i]| <= MAX_BULK) && Tame(Idle, rest)
    ensures Tame(Multibulk(|argv|, -1, done), Bulks(argv) + rest)
    decreases |argv|
  {
    hide Tame, Bulk;
    assert Bulks(argv) + rest == Bulk(argv[0]) + (Bulks(argv[1..]) + rest);
    if |argv| == 1 {
      assert argv[1..] == [] && Bulks(argv[1..]) + rest == rest;
    } else {
      BulksTame(done + [argv[0]], argv[1..], rest);
    }
    BulkTame(Multibulk(|argv|, -1, done), argv[0], Bulks(argv[1..]) + rest);
  }

  lemma CommandTame(argv: Argv, rest: bytes)
    requires Fits(argv) && Tame(Idle, rest)
    ensures Tame(Idle, EncodeCommand(argv) + rest)
  {
    var b1 := Bulks(argv) + rest;
    var b := Line(STAR, |argv|) + b1;
    BulksTame([], argv, rest);
    CountPiece(|argv|, b1);
    ConcatAssoc(Line(STAR, |argv|), Bulks(argv), rest);
    assert Piece(Idle, b) == Take(0, NEW_MULTIBULK, []);
    hide Tame, Piece, Line, Bulks;
    TameTakes(NEW_MULTIBULK, b, |Line(STAR, |argv|)|, Multibulk(|argv|, -1, []), []);
    assert b[0..] == b;
    TameTakes(Idle, b, 0, NEW_MULTIBULK, []);
  }

  lemma {:induction false} CommandsTame(cmds: seq<Argv>)
    requires forall i :: 0 <= i < |cmds| ==> Fits(cmds[i])
    ensures Tame(Idle, EncodeAll(cmds))
  {
    if cmds != [] {
      CommandsTame(cmds[1..]);
      CommandTame(cmds[0], EncodeAll(cmds[1..]));
    }
  }
}
