/** networking.c, reading requests: the resumable parser as a machine that takes one piece of a request
    (a header line, an argument, an inline request) from the front of the query buffer whenever the
    whole piece is there. The size checks of lines 804, 860 and 900 are not part of the machine: they
    depend on how much happens to be in the buffer; `ReadSizes` says when they cannot fire. */
module Requests {
  import opened Bytes
  import opened Decimal
  import opened Resp

  const MAX_MULTIBULK := 1024 * 1024
  const MAX_BULK := 512 * 1024 * 1024
  const SPACE: byte := 32

  /** What the client remembers between reads: `reqtype`, `multibulklen`, `bulklen`, `argv`. */
  datatype Parser =
    | Idle
    | Inline
    | Multibulk(multibulklen: nat, bulklen: int, argv: Argv)
    | Closing  // REDIS_CLOSE_AFTER_REPLY after a protocol error

  const NEW_MULTIBULK := Multibulk(0, -1, [])

  datatype Outcome = Wait | Take(n: nat, next: Parser, command: Argv)

  // ---- looking for the end of a line

  /** The search for a CR (`strchr`) ends at a NUL byte. */
  function FindCR(b: bytes): (r: Option<nat>)
    ensures r.Some? ==> r.value < |b| && b[r.value] == CR
    ensures r.Some? ==> forall i :: 0 <= i < r.value ==> b[i] != CR && b[i] != 0
  {
    if b == [] || b[0] == 0 then None
    else if b[0] == CR then Some(0)
    else match FindCR(b[1..]) case Some(i) => Some(i + 1) case None => None
  }

  /** The search for CRLF (`strstr`). */
  function FindCRLF(b: bytes): (r: Option<nat>)
    ensures r.Some? ==> r.value + 2 <= |b| && b[r.value] == CR && b[r.value + 1] == LF
  {
    if |b| < 2 || b[0] == 0 then None
    else if b[0] == CR && b[1] == LF then Some(0)
    else match FindCRLF(b[1..]) case Some(i) => Some(i + 1) case None => None
  }

  /** The non-empty fields between spaces (`sdssplitlen` and the loop after it). */
  function Fields(b: bytes, field: bytes): Argv
    decreases |b|
  {
    if b == [] then (if field == [] then [] else [field])
    else if b[0] == SPACE then (if field == [] then [] else [field]) + Fields(b[1..], [])
    else Fields(b[1..], field + [b[0]])
  }

  // ---- one piece

  function TakeCount(b: bytes): Outcome {
    match FindCR(b)
    case None => Wait
    case Some(nl) =>
      if nl + 2 > |b| then Wait
      else if nl == 0 || ParseLL(b[1..nl]).None? || ParseLL(b[1..nl]).value > MAX_MULTIBULK then Take(0, Closing, [])
      else
        var n := ParseLL(b[1..nl]).value;
        if n <= 0 then Take(nl + 2, Idle, []) else Take(nl + 2, Multibulk(n, -1, []), [])
  }

  function TakeBulkLength(p: Parser, b: bytes): Outcome
    requires p.Multibulk?
  {
    match FindCR(b)
    case None => Wait
    case Some(nl) =>
      if nl + 2 > |b| then Wait
      else if b[0] != DOLLAR then Take(0, Closing, [])
      else
        match ParseLL(b[1..nl])
        case None => Take(0, Closing, [])
        case Some(n) => if n < 0 || n > MAX_BULK then Take(0, Closing, []) else Take(nl + 2, p.(bulklen := n), [])
  }

  function TakeBulk(p: Parser, b: bytes): Outcome
    requires p.Multibulk? && p.multibulklen > 0 && p.bulklen >= 0
  {
    if |b| < p.bulklen + 2 then Wait
    else
      var argv := p.argv + [b[..p.bulklen]];
      if p.multibulklen == 1 then Take(p.bulklen + 2, Idle, argv)
      else Take(p.bulklen + 2, Multibulk(p.multibulklen - 1, -1, argv), [])
  }

  function TakeInline(b: bytes): Outcome {
    match FindCRLF(b)
    case None => Wait
    case Some(nl) => Take(nl + 2, Idle, Fields(b[..nl], []))
  }

  /** The next piece: how many bytes it takes, what the parser remembers then, and the command it
      completes, if any. An empty buffer never yields one. */
  function Piece(p: Parser, b: bytes): (r: Outcome)
    ensures r.Take? ==> r.n <= |b|
    ensures r.Take? && r.n == 0 ==> r.next != p && (p.Idle? ==> r.next.Inline? || r.next.Multibulk?)
                                    && (!p.Idle? ==> r.next.Closing?)
    ensures p.Closing? || b == [] ==> r.Wait?
  {
    match p
    case Closing => Wait
    case Idle => if b == [] then Wait else Take(0, if b[0] == STAR then NEW_MULTIBULK else Inline, [])
    case Inline => TakeInline(b)
    case Multibulk(n, bulklen, argv) =>
      if n == 0 then TakeCount(b) else if bulklen < 0 then TakeBulkLength(p, b) else TakeBulk(p, b)
  }

  function Rank(p: Parser): nat {
    match p case Idle => 2 case Closing => 0 case _ => 1
  }

  datatype Result = Result(p: Parser, left: bytes, commands: seq<Argv>)

  function Emit(command: Argv): seq<Argv> {
    if command == [] then [] else [command]
  }

  function Then(commands: seq<Argv>, r: Result): Result {
    r.(commands := commands + r.commands)
  }

  lemma ThenCommands(x: seq<Argv>, r: Result)
    ensures Then(x, r) == Result(r.p, r.left, x + r.commands)
  {
  }

  lemma ThenThen(x: seq<Argv>, y: seq<Argv>, r: Result)
    ensures Then(x, Then(y, r)) == Then(x + y, r)
    ensures Then([], r) == r
  {
    assert x + (y + r.commands) == x + y + r.commands;
    assert [] + r.commands == r.commands;
  }

  /** Takes pieces as long as there are any. */
  function Parse(p: Parser, b: bytes): (r: Result)
    ensures |r.left| <= |b|
    decreases |b|, Rank(p)
  {
    match Piece(p, b)
    case Wait => Result(p, b, [])
    case Take(n, next, command) => Then(Emit(command), Parse(next, b[n..]))
  }

  lemma ParseWaits(p: Parser, b: bytes)
    requires Piece(p, b).Wait?
    ensures Parse(p, b) == Result(p, b, [])
  {
  }

  lemma ParseTakes(p: Parser, b: bytes, n: nat, next: Parser, command: Argv)
    requires Piece(p, b) == Take(n, next, command)
    ensures Parse(p, b) == Then(Emit(command), Parse(next, b[n..]))
  {
  }

  // ---- bytes that come later do not change a piece that is complete

  lemma {:induction false} FindCRStable(a: bytes, b: bytes)
    requires FindCR(a).Some?
    ensures FindCR(a + b) == FindCR(a)
  {
    if a[0] != CR {
      assert (a + b)[1..] == a[1..] + b;
      FindCRStable(a[1..], b);
    }
  }

  lemma {:induction false} FindCRLFStable(a: bytes, b: bytes)
    requires FindCRLF(a).Some?
    ensures FindCRLF(a + b) == FindCRLF(a)
  {
    if !(a[0] == CR && a[1] == LF) {
      assert (a + b)[1..] == a[1..] + b;
      FindCRLFStable(a[1..], b);
    }
  }

  lemma PieceStable(p: Parser, a: bytes, b: bytes)
    requires Piece(p, a).Take?
    ensures Piece(p, a + b) == Piece(p, a)
  {
    match p
    case Idle =>
    case Inline =>
      FindCRLFStable(a, b);
      assert (a + b)[..FindCRLF(a).value] == a[..FindCRLF(a).value];
    case Multibulk(n, bulklen, argv) =>
      if n == 0 || bulklen < 0 {
        FindCRStable(a, b);
        if FindCR(a).value > 0 { assert (a + b)[1..FindCR(a).value] == a[1..FindCR(a).value]; }
      } else {
        assert (a + b)[..bulklen] == a[..bulklen];
      }
  }

  /** Parsing what is there and then, resumed, what comes later gives the same commands, the same parser
      and the same rest as parsing everything at once. */
  lemma {:induction false} ParseResumes(p: Parser, a: bytes, b: bytes)
    ensures var r := Parse(p, a); Parse(p, a + b) == Then(r.commands, Parse(r.p, r.left + b))
    decreases |a|, Rank(p)
  {
    hide Parse, Piece, Then;
    match Piece(p, a)
    case Wait =>
      ParseWaits(p, a);
      ThenThen([], [], Parse(p, a + b));
    case Take(n, next, command) =>
      PieceStable(p, a, b);
      ParseTakes(p, a, n, next, command);
      ParseTakes(p, a + b, n, next, command);
      assert (a + b)[n..] == a[n..] + b;
      ParseResumes(next, a[n..], b);
      var r := Parse(next, a[n..]);
      ThenThen(Emit(command), r.commands, Parse(r.p, r.left + b));
      ThenCommands(Emit(command), r);
  }

  /** Reads of any sizes, each followed by parsing. */
  function ParseChunks(p: Parser, left: bytes, chunks: seq<bytes>): Result
    decreases |chunks|
  {
    if chunks == [] then Result(p, left, [])
    else
      var r := Parse(p, left + chunks[0]);
      Then(r.commands, ParseChunks(r.p, r.left, chunks[1..]))
  }

  function Join(chunks: seq<bytes>): bytes {
    if chunks == [] then [] else chunks[0] + Join(chunks[1..])
  }

  /** However a byte stream, well formed or not, is cut into chunks, the commands, the state of the parser
      and the bytes kept for later are those of parsing it whole. */
  lemma {:induction false} ChunkIndependent(p: Parser, left: bytes, chunks: seq<bytes>)
    requires Piece(p, left).Wait?
    ensures ParseChunks(p, left, chunks) == Parse(p, left + Join(chunks))
    decreases |chunks|
  {
    ParseWaits(p, left);
    hide Parse, Piece, Then;
    if chunks == [] {
      assert left + Join(chunks) == left;
    } else {
      var c, later := left + chunks[0], Join(chunks[1..]);
      var r := Parse(p, c);
      ParseStops(p, c);
      ChunkIndependent(r.p, r.left, chunks[1..]);
      ConcatAssoc(left, chunks[0], later);
      ParseResumes(p, c, later);
    }
  }

  lemma {:induction false} ParseStops(p: Parser, b: bytes)
    ensures Piece(Parse(p, b).p, Parse(p, b).left).Wait?
    decreases |b|, Rank(p)
  {
    if Piece(p, b).Take? { ParseStops(Piece(p, b).next, b[Piece(p, b).n..]); }
  }

  // ---- printed commands are parsed back

  ghost predicate Fits(argv: Argv) {
    && 1 <= |argv| <= MAX_MULTIBULK
    && forall i :: 0 <= i < |argv| ==> |argv[i]| <= MAX_BULK
  }

  lemma {:induction false} FindCRIs(b: bytes, nl: nat)
    requires nl < |b| && b[nl] == CR && forall i :: 0 <= i < nl ==> b[i] != CR && b[i] != 0
    ensures FindCR(b) == Some(nl)
  {
    if nl > 0 { FindCRIs(b[1..], nl - 1); }
  }

  lemma LineFound(prefix: byte, n: nat, rest: bytes)
    requires n <= LLONG_MAX && (prefix == STAR || prefix == DOLLAR)
    ensures var b := Line(prefix, n) + rest; var nl := |Line(prefix, n)| - 2;
            && b[0] == prefix && nl > 0 && FindCR(b) == Some(nl) && ParseLL(b[1..nl]) == Some(n)
            && b[nl + 2..] == rest
  {
    var b, nl := Line(prefix, n) + rest, |Line(prefix, n)| - 2;
    assert b[1..nl] == Digits(n) == Dec(n);
    ParseLLDec(n);
    forall i | 0 <= i < nl ensures b[i] != CR && b[i] != 0 {
      if i > 0 { assert b[i] == b[1..nl][i - 1]; }
    }
    FindCRIs(b, nl);
  }

  /** What the parser remembers once an argument has been taken, and the command that completes. */
  function AfterBulk(p: Parser, a: bytes): (Parser, Argv)
    requires p.Multibulk? && p.multibulklen > 0
  {
    var argv := p.argv + [a];
    if p.multibulklen == 1 then (Idle, argv) else (Multibulk(p.multibulklen - 1, -1, argv), [])
  }

  /** One printed argument takes two pieces. */
  lemma BulkPieces(p: Parser, a: bytes, rest: bytes)
    requires p.Multibulk? && p.multibulklen > 0 && p.bulklen == -1 && |a| <= MAX_BULK
    ensures var b, b1, nl := Bulk(a) + rest, a + CRLF + rest, |Line(DOLLAR, |a|)|;
            && Piece(p, b) == Take(nl, p.(bulklen := |a|), []) && b[nl..] == b1
            && Piece(p.(bulklen := |a|), b1) == Take(|a| + 2, AfterBulk(p, a).0, AfterBulk(p, a).1)
            && b1[|a| + 2..] == rest
  {
    var b, b1 := Bulk(a) + rest, a + CRLF + rest;
    assert b == Line(DOLLAR, |a|) + b1;
    LineFound(DOLLAR, |a|, b1);
    hide Line, ParseLL, FindCR;
    assert b1[..|a|] == a && b1[|a| + 2..] == rest;
  }

  lemma BulkParses(p: Parser, a: bytes, rest: bytes)
    requires p.Multibulk? && p.multibulklen > 0 && p.bulklen == -1 && |a| <= MAX_BULK
    ensures Parse(p, Bulk(a) + rest) == Then(Emit(AfterBulk(p, a).1), Parse(AfterBulk(p, a).0, rest))
  {
    var b, b1 := Bulk(a) + rest, a + CRLF + rest;
    var (next, command) := AfterBulk(p, a);
    var p1 := p.(bulklen := |a|);
    BulkPieces(p, a, rest);
    hide Parse, Then, Bulk, Piece, AfterBulk;
    ParseTakes(p, b, |Line(DOLLAR, |a|)|, p1, []);
    ParseTakes(p1, b1, |a| + 2, next, command);
    ThenThen([], [], Parse(p1, b1));
  }

  lemma {:induction false} BulksParse(done: Argv, argv: Argv, rest: bytes)
    requires argv != [] && forall i :: 0 <= i < |argv| ==> |argv[i]| <= MAX_BULK
    ensures Parse(Multibulk(|argv|, -1, done), Bulks(argv) + rest) == Then([done + argv], Parse(Idle, rest))
    decreases |argv|
  {
    hide Parse, Bulk;
    assert Bulks(argv) + rest == Bulk(argv[0]) + (Bulks(argv[1..]) + rest);
    BulkParses(Multibulk(|argv|, -1, done), argv[0], Bulks(argv[1..]) + rest);
    assert done + [argv[0]] + argv[1..] == done + argv;
    ThenThen([], [], Parse(Multibulk(|argv| - 1, -1, done + [argv[0]]), Bulks(argv[1..]) + rest));
    if |argv| == 1 {
      assert argv[1..] == [] && Bulks(argv[1..]) + rest == rest;
      assert done + [argv[0]] == done + argv;
    } else {
      BulksParse(done + [argv[0]], argv[1..], rest);
    }
  }

  lemma CountPiece(n: nat, b1: bytes)
    requires 1 <= n <= MAX_MULTIBULK
    ensures Piece(NEW_MULTIBULK, Line(STAR, n) + b1) == Take(|Line(STAR, n)|, Multibulk(n, -1, []), [])
    ensures (Line(STAR, n) + b1)[|Line(STAR, n)|..] == b1 && (Line(STAR, n) + b1)[0] == STAR
  {
    LineFound(STAR, n, b1);
    hide Line, ParseLL, FindCR;
  }

  /** The header of a command takes two pieces: its kind and its count. */
  lemma CountParses(n: nat, b1: bytes)
    requires 1 <= n <= MAX_MULTIBULK
    ensures Parse(Idle, Line(STAR, n) + b1) == Parse(Multibulk(n, -1, []), b1)
  {
    var b, p1 := Line(STAR, n) + b1, Multibulk(n, -1, []);
    CountPiece(n, b1);
    hide Line;
    assert Piece(Idle, b) == Take(0, NEW_MULTIBULK, []);
    hide Parse, Piece, Then;
    ParseTakes(Idle, b, 0, NEW_MULTIBULK, []);
    assert b[0..] == b;
    ParseTakes(NEW_MULTIBULK, b, |Line(STAR, n)|, p1, []);
    ThenThen([], [], Parse(p1, b1));
  }

  lemma CommandParses(argv: Argv, rest: bytes)
    requires Fits(argv)
    ensures Parse(Idle, EncodeCommand(argv) + rest) == Then([argv], Parse(Idle, rest))
  {
    hide Parse, Line, Then, Bulks;
    ConcatAssoc(Line(STAR, |argv|), Bulks(argv), rest);
    CountParses(|argv|, Bulks(argv) + rest);
    BulksParse([], argv, rest);
    assert [] + argv == argv;
  }

  lemma {:induction false} CommandsParse(cmds: seq<Argv>)
    requires forall i :: 0 <= i < |cmds| ==> Fits(cmds[i])
    ensures Parse(Idle, EncodeAll(cmds)) == Result(Idle, [], cmds)
  {
    if cmds != [] {
      CommandParses(cmds[0], EncodeAll(cmds[1..]));
      CommandsParse(cmds[1..]);
      assert [cmds[0]] + cmds[1..] == cmds;
    }
  }

  /** Commands printed one after the other and read back in chunks of any sizes come out as they went
      in, in order, with nothing left over. */
  lemma ChunkedRoundTrip(cmds: seq<Argv>, chunks: seq<bytes>)
    requires forall i :: 0 <= i < |cmds| ==> Fits(cmds[i])
    requires Join(chunks) == EncodeAll(cmds)
    ensures ParseChunks(Idle, [], chunks) == Result(Idle, [], cmds)
  {
    ChunkIndependent(Idle, [], chunks);
    assert [] + Join(chunks) == Join(chunks);
    CommandsParse(cmds);
  }
}
