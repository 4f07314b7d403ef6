/** aof.c, loading: `loadAppendOnlyFile` reads commands with fgets, strtol and fread and runs them in the
    context of a fake client that starts in database 0. */
module AofLoader {
  import opened Bytes
  import opened Decimal
  import opened Resp

  const LINE_MAX := 127  // fgets into char buf[128]

  datatype Parsed = End | Command(argv: Argv, rest: bytes) | Bad

  /** How many bytes `fgets` takes: up to and including a newline, at most `n`. */
  function Fgets(s: bytes, n: nat): (r: nat)
    ensures r <= |s| && (n > 0 && s != [] ==> r > 0)
  {
    if n == 0 || s == [] then 0 else if s[0] == LF then 1 else 1 + Fgets(s[1..], n - 1)
  }

  /** One argument: its length line, its bytes and two more that are thrown away. */
  function ParseArg(s: bytes): (r: Option<(bytes, bytes)>)
    ensures r.Some? ==> |r.value.1| < |s|
  {
    var l := Fgets(s, LINE_MAX);
    if s == [] || s[0] != DOLLAR then None
    else
      var len := Strtol(s[1..l]);
      if len < 0 || l + len + 2 > |s| then None else Some((s[l..l + len], s[l + len + 2..]))
  }

  function ParseArgs(s: bytes, n: nat): (r: Parsed)
    ensures !r.End?
    ensures r.Command? ==> |r.rest| <= |s| && |r.argv| == n
    decreases n
  {
    if n == 0 then Command([], s)
    else
      match ParseArg(s)
      case None => Bad
      case Some((arg, left)) =>
        match ParseArgs(left, n - 1)
        case Command(argv, rest) => Command([arg] + argv, rest)
        case other => other
  }

  /** One turn of the loading loop, up to the command being complete. */
  function ParseCommand(s: bytes): Parsed {
    if s == [] then End
    else
      var l := Fgets(s, LINE_MAX);
      if s[0] != STAR then Bad
      else
        var argc := Strtol(s[1..l]);
        if argc < 1 then Bad else ParseArgs(s[l..], argc)
  }

  lemma ParseShrinks(s: bytes)
    ensures ParseCommand(s).Command? ==> |ParseCommand(s).rest| < |s| && |ParseCommand(s).argv| > 0
    ensures ParseCommand(s).End? <==> s == []
  {
  }

  // ---- the loader reads back what the printer wrote

  /** Counts and lengths fit a long. */
  ghost predicate WellSized(argv: Argv) {
    && 1 <= |argv| <= LLONG_MAX
    && forall i :: 0 <= i < |argv| ==> |argv[i]| <= LLONG_MAX
  }

  ghost predicate AllWellSized(cmds: seq<Argv>) {
    forall i :: 0 <= i < |cmds| ==> WellSized(cmds[i])
  }

  lemma {:induction false} FgetsIs(s: bytes, m: nat, n: nat)
    requires 1 <= m <= n && m <= |s| && s[m - 1] == LF && forall i :: 0 <= i < m - 1 ==> s[i] != LF
    ensures Fgets(s, n) == m
  {
    if m > 1 { FgetsIs(s[1..], m - 1, n - 1); }
  }

  /** A printed header line is read back whole, and its number from it. */
  lemma LineReads(prefix: byte, n: nat, rest: bytes)
    requires n <= LLONG_MAX && prefix != LF
    ensures var s := Line(prefix, n) + rest;
            && Fgets(s, LINE_MAX) == |Line(prefix, n)| && s[0] == prefix
            && Strtol(s[1..|Line(prefix, n)|]) == n && s[|Line(prefix, n)|..] == rest
  {
    var line := Line(prefix, n);
    var s := line + rest;
    LongLongDigits(n);
    FgetsIs(s, |line|, LINE_MAX);
    assert s[1..|line|] == Digits(n) + [CR] + [LF];
    StrtolReads(n, CR, [LF]);
  }

  lemma ParseArgReads(a: bytes, tail: bytes)
    requires |a| <= LLONG_MAX
    ensures ParseArg(Bulk(a) + tail) == Some((a, tail))
  {
    var s := Bulk(a) + tail;
    LineReads(DOLLAR, |a|, a + CRLF + tail);
    assert s == Line(DOLLAR, |a|) + (a + CRLF + tail);
    var l := |Line(DOLLAR, |a|)|;
    assert s[l..l + |a|] == a;
    assert s[l + |a| + 2..] == tail;
  }

  lemma {:induction false} ParseArgsReads(argv: Argv, rest: bytes)
    requires forall i :: 0 <= i < |argv| ==> |argv[i]| <= LLONG_MAX
    ensures ParseArgs(Bulks(argv) + rest, |argv|) == Command(argv, rest)
  {
    hide ParseArg, Bulk;
    if argv == [] {
      assert [] + rest == rest;
    } else {
      assert Bulks(argv) + rest == Bulk(argv[0]) + (Bulks(argv[1..]) + rest);
      ParseArgReads(argv[0], Bulks(argv[1..]) + rest);
      ParseArgsReads(argv[1..], rest);
    }
  }

  lemma ParseReads(argv: Argv, rest: bytes)
    requires WellSized(argv)
    ensures ParseCommand(EncodeCommand(argv) + rest) == Command(argv, rest)
  {
    var s := EncodeCommand(argv) + rest;
    LineReads(STAR, |argv|, Bulks(argv) + rest);
    assert s == Line(STAR, |argv|) + (Bulks(argv) + rest);
    ParseArgsReads(argv, rest);
  }

  // ---- running what was read

  /** Scores of a sorted set are the texts they are printed as. */
  datatype Value =
    | Str(s: bytes)
    | List(items: seq<bytes>)
    | Set(members: set<bytes>)
    | ZSet(scores: map<bytes, bytes>)
    | Hash(fields: map<bytes, bytes>)

  /** A value and the time at which it expires, in milliseconds; -1 is none. */
  datatype Stored = Stored(value: Value, expire: int)

  const NO_EXPIRE := -1

  type Keyspace = map<bytes, Stored>
  type Dataset = seq<Keyspace>

  /** What a command does to the dataset when run in a database: any deterministic function. There may be
      no such command. */
  type Exec = (Dataset, nat, Argv) -> Option<Dataset>

  function Run(exec: Exec, data: Dataset, db: nat, argv: Argv): Dataset {
    match exec(data, db, argv) case Some(d) => d case None => data
  }

  predicate Known(exec: Exec, data: Dataset, db: nat, argv: Argv) {
    exec(data, db, argv).Some?
  }

  function Lower(c: byte): byte {
    if 65 <= c <= 90 then c + 32 else c
  }

  const SELECT: bytes := [83, 69, 76, 69, 67, 84]
  const MULTI: bytes := [77, 85, 76, 84, 73]
  const EXEC: bytes := [69, 88, 69, 67]
  const DISCARD: bytes := [68, 73, 83, 67, 65, 82, 68]

  /** Command names are looked up without regard to case. */
  predicate Named(name: bytes, command: bytes) {
    |name| == |command| && forall i :: 0 <= i < |name| ==> Lower(name[i]) == Lower(command[i])
  }

  /** None of the commands that act on the client rather than on the dataset. */
  predicate Ordinary(name: bytes) {
    !Named(name, SELECT) && !Named(name, MULTI) && !Named(name, EXEC) && !Named(name, DISCARD)
  }

  /** The fake client: the dataset, its selected database, whether it is inside MULTI, and whether it met an
      unknown command, which stops the server. */
  datatype Client = Client(data: Dataset, db: nat, multi: bool, stopped: bool)

  /** One command of the file, run at once even inside MULTI. SELECT moves the client, when its argument is a
      database index. */
  function RunOne(exec: Exec, c: Client, argv: Argv): Client
    requires |argv| > 0
  {
    if Named(argv[0], SELECT) then
      if |argv| == 2 && ParseLL(argv[1]).Some? && 0 <= ParseLL(argv[1]).value < |c.data|
      then c.(db := ParseLL(argv[1]).value) else c
    else if Named(argv[0], MULTI) then c.(multi := true)
    else if Named(argv[0], EXEC) || Named(argv[0], DISCARD) then c.(multi := false)
    else if !Known(exec, c.data, c.db, argv) then c.(stopped := true)
    else c.(data := Run(exec, c.data, c.db, argv))
  }

  function Replay(exec: Exec, c: Client, cmds: seq<Argv>): Client
    requires forall i :: 0 <= i < |cmds| ==> |cmds[i]| > 0
    decreases |cmds|
  {
    if cmds == [] then c else Replay(exec, RunOne(exec, c, cmds[0]), cmds[1..])
  }

  /** `loadAppendOnlyFile` on the bytes of the file; `None` is a fatal exit: on a malformed file, an unknown
      command, or a MULTI without its EXEC at the end. */
  function Load(exec: Exec, c: Client, s: bytes): Option<Client>
    decreases |s|
  {
    ParseShrinks(s);
    match ParseCommand(s)
    case End => if c.multi || c.stopped then None else Some(c)
    case Bad => None
    case Command(argv, rest) => Load(exec, RunOne(exec, c, argv), rest)
  }

  /** Loading printed commands runs them in order and goes on with what follows them. */
  lemma {:induction false} LoadReplays(exec: Exec, c: Client, cmds: seq<Argv>, rest: bytes)
    requires AllWellSized(cmds)
    ensures Load(exec, c, EncodeAll(cmds) + rest) == Load(exec, Replay(exec, c, cmds), rest)
    decreases |cmds|
  {
    if cmds == [] {
      assert EncodeAll(cmds) + rest == rest;
    } else {
      assert EncodeAll(cmds) + rest == EncodeCommand(cmds[0]) + (EncodeAll(cmds[1..]) + rest);
      ParseReads(cmds[0], EncodeAll(cmds[1..]) + rest);
      LoadReplays(exec, RunOne(exec, c, cmds[0]), cmds[1..], rest);
    }
  }

  lemma {:induction false} ReplayConcat(exec: Exec, c: Client, x: seq<Argv>, y: seq<Argv>)
    requires AllWellSized(x) && AllWellSized(y)
    ensures AllWellSized(x + y) && Replay(exec, c, x + y) == Replay(exec, Replay(exec, c, x), y)
    decreases |x|
  {
    if x == [] {
      assert x + y == y;
    } else {
      assert (x + y)[1..] == x[1..] + y;
      ReplayConcat(exec, RunOne(exec, c, x[0]), x[1..], y);
    }
  }

  // ---- the loader as the code runs it

  /** Reading one argument. */
  method ReadArg(s: bytes) returns (ok: bool, arg: bytes, rest: bytes)
    ensures ok <==> ParseArg(s).Some?
    ensures ok ==> ParseArg(s) == Some((arg, rest))
  {
    ok, arg, rest := false, [], s;
    var l := Fgets(s, LINE_MAX);
    if s == [] { return; }
    if s[0] != DOLLAR { return; }
    var len := Strtol(s[1..l]);
    if len < 0 || l + len > |s| { return; }
    arg := s[l..l + len];
    if l + len + 2 > |s| { return; }
    rest := s[l + len + 2..];
    ok := true;
  }

  /** The argument loop of `loadAppendOnlyFile`. */
  method ReadArgs(s: bytes, argc: nat) returns (ok: bool, argv: Argv, rest: bytes)
    ensures ok <==> ParseArgs(s, argc).Command?
    ensures ok ==> ParseArgs(s, argc) == Command(argv, rest)
  {
    argv, rest := [], s;
    var j := 0;
    while j < argc
      invariant j <= argc
      invariant ParseArgs(s, argc) == Before(argv, ParseArgs(rest, argc - j))
    {
      var arg;
      ghost var from := rest;
      ok, arg, rest := ReadArg(rest);
      BeforeOne(argv, arg, ParseArgs(rest, argc - j - 1));
      if !ok { return; }
      argv := argv + [arg];
      j := j + 1;
    }
    assert argv + [] == argv;
    return true, argv, rest;
  }

  function Before(argv: Argv, p: Parsed): Parsed {
    if p.Command? then Command(argv + p.argv, p.rest) else p
  }

  lemma BeforeOne(argv: Argv, arg: bytes, p: Parsed)
    ensures Before(argv, Before([arg], p)) == Before(argv + [arg], p)
  {
    if p.Command? { assert argv + ([arg] + p.argv) == argv + [arg] + p.argv; }
  }

  /** The state a loader starts from. */
  function Fresh(dbnum: nat): Client {
    Client(seq(dbnum, _ => map[]), 0, false, false)
  }

  lemma {:induction false} StoppedFails(exec: Exec, c: Client, s: bytes)
    requires c.stopped
    ensures Load(exec, c, s) == None
    decreases |s|
  {
    ParseShrinks(s);
    var p := ParseCommand(s);
    if p.Command? { StoppedFails(exec, RunOne(exec, c, p.argv), p.rest); }
    hide ParseCommand;
  }

  /** `loadAppendOnlyFile`. */
  method LoadFile(exec: Exec, dbnum: nat, s: bytes) returns (r: Option<Client>)
    ensures r == Load(exec, Fresh(dbnum), s)
  {
    var c, left := Fresh(dbnum), s;
    while left != []
      invariant Load(exec, c, left) == Load(exec, Fresh(dbnum), s)
      decreases |left|
    {
      ParseShrinks(left);
      var l := Fgets(left, LINE_MAX);
      if left[0] != STAR { return None; }
      var argc := Strtol(left[1..l]);
      if argc < 1 { return None; }
      var ok, argv, rest := ReadArgs(left[l..], argc);
      if !ok { return None; }
      c := RunOne(exec, c, argv);
      left := rest;
      if c.stopped {
        StoppedFails(exec, c, left);
        return None;
      }
    }
    if c.multi || c.stopped { return None; }
    return Some(c);
  }
}
