/** networking.c, reading requests: the client object that is fed by reads. Commands are executed by
    recording them; none of them blocks or closes the client. */
module Networking {
  import opened Bytes
  import opened Decimal
  import opened Resp
  import opened Requests
  import opened ReadSizes

  /** What `read` returned: some bytes, EAGAIN, or another error or the end of the connection. */
  datatype ReadOutcome = Received(chunk: bytes) | Blocked | Ended

  datatype ReqType = Unknown | InlineReq | MultibulkReq

  /** What became of the search for a bulk length line. */
  datatype LengthLine = Found(bulklen: nat) | Absent | Wrong | TooLong

  /** The bulk length line at `pos0` (the first half of the loop of `processMultibulkBuffer`). A large
      argument is brought to the front of the buffer. `b` is the buffer from the position on. */
  method ReadBulkLength(q0: bytes, pos0: nat, ghost p: Parser, ghost b0: bytes)
      returns (r: LengthLine, q: bytes, pos: nat, ghost b: bytes)
    requires pos0 <= |q0| && b0 == q0[pos0..] && p.Multibulk? && p.multibulklen > 0 && p.bulklen == -1
    ensures pos <= |q| <= |q0| && b == q[pos..] && |b| <= |b0|
    ensures r.TooLong? <==> FindCR(b0).None? && |q0| > INLINE_MAX_SIZE
    ensures r.Found? ==> Parse(p, b0) == Parse(p.(bulklen := r.bulklen), b)
    ensures r.Found? && r.bulklen >= MBULK_BIG_ARG ==> pos == 0 && q == b
    ensures r.Absent? ==> Parse(p, b0) == Result(p, b, [])
    ensures r.Wrong? ==> Parse(p, b0) == Result(Closing, b, [])
  {
    hide Parse, Then, Piece, FindCR, ParseLL;
    q, pos, b := q0, pos0, b0;
    var newline := FindCR(q[pos..]);
    if newline.None? {
      LengthWaits(p, b);
      r := if |q| > INLINE_MAX_SIZE then TooLong else Absent;
      return;
    }
    var nl := newline.value;
    if pos + nl > |q| - 2 {
      LengthWaits(p, b);
      return Absent, q, pos, b;
    }
    if q[pos] != DOLLAR {
      LengthWrong(p, b);
      return Wrong, q, pos, b;
    }
    PartOfRest(q, pos, 1, nl);
    var ll := ParseLL(q[pos + 1..pos + nl]);
    if ll.None? || ll.value < 0 || ll.value > MAX_BULK {
      LengthWrong(p, b);
      return Wrong, q, pos, b;
    }
    RestOfRest(q, pos, nl + 2);
    LengthFound(p, b, ll.value, b[nl + 2..]);
    b := b[nl + 2..];
    pos := pos + nl + 2;
    if ll.value >= MBULK_BIG_ARG {
      q, pos := q[pos..], 0;
    }
    r := Found(ll.value);
  }

  /** The argument at `pos0`, when all of it and its CRLF are there (the second half of the loop). */
  method ReadBulk(q0: bytes, pos0: nat, argv0: Argv, bulklen: nat, ghost p: Parser, ghost b0: bytes)
      returns (go: bool, q: bytes, pos: nat, argv: Argv, ghost b: bytes)
    requires pos0 <= |q0| && b0 == q0[pos0..]
    requires p.Multibulk? && p.multibulklen > 0 && p.bulklen == bulklen && p.argv == argv0
    ensures pos <= |q| <= |q0| && b == q[pos..]
    ensures go ==> argv != [] && |b| < |b0|
    ensures go && p.multibulklen > 1 ==> Parse(p, b0) == Parse(Multibulk(p.multibulklen - 1, -1, argv), b)
    ensures go && p.multibulklen == 1 ==> Parse(p, b0) == Then([argv], Parse(Idle, b))
    ensures !go ==> argv == argv0 && q == q0 && pos == pos0 && Parse(p, b) == Result(p, b, [])
    ensures go && pos0 == 0 && OnArgument(p, |q0|) ==> q == []
  {
    hide Parse, Then, Piece;
    q, pos, argv, b := q0, pos0, argv0, b0;
    if |q| - pos < bulklen + 2 {
      BulkWaits(p, b);
      return false, q, pos, argv, b;
    }
    PartOfRest(q, pos, 0, bulklen);
    RestOfRest(q, pos, bulklen + 2);
    b := b[bulklen + 2..];
    if pos == 0 && bulklen >= MBULK_BIG_ARG && |q| == bulklen + 2 {
      // the buffer is exactly the argument and its CRLF: it becomes the argument
      argv := argv + [q[..bulklen]];
      q := [];
    } else {
      argv := argv + [q[pos..pos + bulklen]];
      pos := pos + bulklen + 2;
    }
    BulkTaken(p, b0, argv, b);
    go := true;
  }

  datatype Status = Complete | Incomplete | Malformed | TooMuch

  /** The loop of `processMultibulkBuffer` over the arguments, on the values of the client's fields. */
  method ReadArguments(q0: bytes, pos0: nat, p0: Parser) returns (status: Status, q: bytes, pos: nat, p: Parser)
    requires pos0 <= |q0| && p0.Multibulk? && p0.multibulklen > 0 && p0.bulklen >= -1
    ensures pos <= |q| <= |q0| && |q| - pos <= |q0| - pos0 && p.Multibulk? && p.bulklen >= -1
    ensures status.Complete? <==> p.multibulklen == 0
    ensures status.TooMuch? ==> |q0| > INLINE_MAX_SIZE && !(pos0 == 0 && OnArgument(p0, |q0|))
    ensures status.Complete? && pos0 == 0 && OnArgument(p0, |q0|) ==> q == []
    ensures status.Complete? ==> p.argv != [] && p.bulklen == -1 && |q| - pos < |q0| - pos0
    ensures status.Complete? ==> Parse(p0, q0[pos0..]) == Then([p.argv], Parse(Idle, q[pos..]))
    ensures status.Incomplete? ==> Parse(p0, q0[pos0..]) == Result(p, q[pos..], [])
    ensures status.Malformed? ==> Parse(p0, q0[pos0..]) == Result(Closing, q[pos..], [])
  {
    hide Parse, Then, Piece;
    q, pos, p := q0, pos0, p0;
    ghost var b := q[pos..];
    ghost var goal, size := Parse(p, b), |b|;
    while p.multibulklen > 0
      invariant p.Multibulk? && p.bulklen >= -1 && pos <= |q| <= |q0| && b == q[pos..] && |b| <= size
      invariant p.multibulklen > 0 ==> goal == Parse(p, b)
      invariant p.multibulklen == 0 ==> goal == Then([p.argv], Parse(Idle, b))
      invariant p.multibulklen == 0 ==> p.bulklen == -1 && p.argv != [] && |b| < size
      invariant pos0 == 0 && OnArgument(p0, |q0|) ==> q == [] || (q == q0 && pos == pos0 && p == p0)
      decreases p.multibulklen
    {
      if p.bulklen == -1 {
        var line;
        line, q, pos, b := ReadBulkLength(q, pos, p, b);
        match line {
          case Absent => return Incomplete, q, pos, p;
          case TooLong => return TooMuch, q, pos, p;
          case Wrong => return Malformed, q, pos, p;
          case Found(ll) => p := p.(bulklen := ll);
        }
      }
      var go, argv;
      go, q, pos, argv, b := ReadBulk(q, pos, p.argv, p.bulklen, p, b);
      if !go { return Incomplete, q, pos, p; }
      p := Multibulk(p.multibulklen - 1, -1, argv);
    }
    status := Complete;
  }

  class Client {
    var querybuf: bytes
    var reqtype: ReqType
    var multibulklen: int
    var bulklen: int
    var argv: Argv
    var closing: bool             // REDIS_CLOSE_AFTER_REPLY
    var tooBig: bool              // one of the checks against INLINE_MAX_SIZE has fired
    var executed: seq<Argv>
    var freed: bool
    const limit: nat              // client_max_querybuf_len

    ghost function Now(): Parser
      reads this
    {
      if closing then Closing
      else match reqtype
        case Unknown => Idle
        case InlineReq => Inline
        case MultibulkReq => if multibulklen < 0 then Closing else Multibulk(multibulklen, bulklen, argv)
    }

    ghost predicate Valid()
      reads this
    {
      && multibulklen >= 0 && bulklen >= -1
      && (tooBig ==> closing)
      && (multibulklen == 0 ==> argv == [] && bulklen == -1)
      && (multibulklen > 0 ==> reqtype == MultibulkReq)
      && (reqtype == MultibulkReq && multibulklen == 0 && !closing ==> querybuf != [] && querybuf[0] == STAR)
    }

    constructor (limit: nat)
      ensures Valid() && Now() == Idle && querybuf == [] && executed == [] && !tooBig && !freed
      ensures this.limit == limit
    {
      querybuf, reqtype, multibulklen, bulklen, argv := [], Unknown, 0, -1, [];
      closing, tooBig, executed, freed := false, false, [], false;
      this.limit := limit;
    }

    /** `setProtocolError`: keep the bytes from `pos` on and process no more. */
    method SetProtocolError(pos: nat)
      requires pos <= |querybuf|
      modifies this`closing, this`querybuf
      ensures closing && querybuf == old(querybuf)[pos..]
    {
      closing := true;
      querybuf := querybuf[pos..];
    }

    /** `resetClient`. */
    method Reset()
      modifies this`reqtype, this`multibulklen, this`bulklen, this`argv
      ensures reqtype == Unknown && multibulklen == 0 && bulklen == -1 && argv == []
    {
      argv, reqtype, multibulklen, bulklen := [], Unknown, 0, -1;
    }

    /** `processInlineBuffer`. */
    method ProcessInlineBuffer() returns (ok: bool)
      requires Valid() && Now() == Inline
      modifies this`querybuf, this`argv, this`closing, this`tooBig
      ensures tooBig ==> !ok && |old(querybuf)| > INLINE_MAX_SIZE && closing
      ensures tooBig <==> FindCRLF(old(querybuf)).None? && |old(querybuf)| > INLINE_MAX_SIZE
      ensures ok ==> Parse(Inline, old(querybuf)) == Then(Emit(argv), Parse(Idle, querybuf)) && !closing
      ensures ok ==> |querybuf| < |old(querybuf)|
      ensures !ok ==> Valid()
      ensures !ok && !tooBig ==> Parse(Inline, old(querybuf)) == Result(Now(), querybuf, [])
      ensures !ok ==> argv == old(argv)
    {
      var newline := FindCRLF(querybuf);
      if newline.None? {
        if |querybuf| > INLINE_MAX_SIZE {
          tooBig := true;
          SetProtocolError(0);
        }
        return false;
      }
      ParseTakes(Inline, querybuf, newline.value + 2, Idle, Fields(querybuf[..newline.value], []));
      argv := Fields(querybuf[..newline.value], []);
      querybuf := querybuf[newline.value + 2..];
      return true;
    }

    /** The first part of `processMultibulkBuffer`: the number of arguments. `more` when the arguments
        can be read from `pos` on. */
    method ReadCount() returns (ok: bool, more: bool, pos: nat)
      requires Valid() && !closing && reqtype == MultibulkReq && multibulklen == 0
      modifies this`querybuf, this`multibulklen, this`closing, this`tooBig
      ensures tooBig ==> !ok && !more && |old(querybuf)| > INLINE_MAX_SIZE && closing
      ensures tooBig <==> FindCR(old(querybuf)).None? && |old(querybuf)| > INLINE_MAX_SIZE
      ensures more ==> !closing && querybuf == old(querybuf) && multibulklen > 0 && 2 <= pos <= |querybuf|
      ensures more ==> Parse(NEW_MULTIBULK, querybuf) == Parse(Multibulk(multibulklen, -1, []), querybuf[pos..])
      ensures !more ==> multibulklen == 0
      ensures !more && ok ==> !closing && |querybuf| < |old(querybuf)|
      ensures !more && ok ==> Parse(NEW_MULTIBULK, old(querybuf)) == Then([], Parse(Idle, querybuf))
      ensures !more && !ok ==> Valid()
      ensures !more && !ok && !tooBig ==> Parse(NEW_MULTIBULK, old(querybuf)) == Result(Now(), querybuf, [])
    {
      ok, more, pos := false, false, 0;
      ghost var q := querybuf;
      var newline := FindCR(querybuf);
      if newline.None? {
        if |querybuf| > INLINE_MAX_SIZE {
          tooBig := true;
          SetProtocolError(0);
        } else {
          ParseWaits(NEW_MULTIBULK, q);
        }
        return;
      }
      var nl := newline.value;
      if nl > |querybuf| - 2 {
        ParseWaits(NEW_MULTIBULK, q);
        return;
      }
      assert nl > 0;
      var ll := ParseLL(querybuf[1..nl]);
      if ll.None? || ll.value > MAX_MULTIBULK {
        SetProtocolError(0);
        TakeFails(NEW_MULTIBULK, q);
        return;
      }
      pos := nl + 2;
      if ll.value <= 0 {
        ParseTakes(NEW_MULTIBULK, q, pos, Idle, []);
        querybuf := querybuf[pos..];
        ok := true;
        return;
      }
      ParseTakes(NEW_MULTIBULK, q, pos, Multibulk(ll.value, -1, []), []);
      ThenThen([], [], Parse(Multibulk(ll.value, -1, []), q[pos..]));
      multibulklen := ll.value;
      ok, more := true, true;
    }

    /** `processMultibulkBuffer`. On success the request is complete in `argv`, or had a count of zero
        or less; else more bytes are needed, or the client is closing. */
    method ProcessMultibulkBuffer() returns (ok: bool)
      requires Valid() && !closing && reqtype == MultibulkReq
      modifies this`querybuf, this`multibulklen, this`bulklen, this`argv, this`closing, this`tooBig
      ensures tooBig ==> !ok && closing && |old(querybuf)| > INLINE_MAX_SIZE
      ensures OnArgument(old(Now()), |old(querybuf)|) ==> !tooBig && (ok ==> querybuf == [])
      ensures ok ==> !closing && |querybuf| < |old(querybuf)|
      ensures ok ==> Parse(old(Now()), old(querybuf)) == Then(Emit(argv), Parse(Idle, querybuf))
      ensures !ok ==> Valid()
      ensures !ok && !tooBig ==> Parse(old(Now()), old(querybuf)) == Result(Now(), querybuf, [])
    {
      hide Parse, Then, Piece;
      var pos: nat := 0;
      if multibulklen == 0 {
        var more;
        ok, more, pos := ReadCount();
        if !more { return; }
      }
      assert pos == 0 ==> querybuf[0..] == querybuf;
      var status, p;
      status, querybuf, pos, p := ReadArguments(querybuf, pos, Multibulk(multibulklen, bulklen, argv));
      multibulklen, bulklen, argv := p.multibulklen, p.bulklen, p.argv;
      if status.TooMuch? {
        tooBig := true;
        SetProtocolError(0);
        if pos > 0 { querybuf := querybuf[pos..]; }
        return false;
      }
      if status.Malformed? {
        SetProtocolError(pos);
        return false;
      }
      assert pos == 0 ==> querybuf[0..] == querybuf;
      if pos > 0 { querybuf := querybuf[pos..]; }
      return multibulklen == 0;
    }

    /** The kind of a new request: its first byte tells. */
    method TakeKind()
      requires Valid() && !tooBig && !closing && querybuf != []
      modifies this`reqtype
      ensures Valid() && reqtype != Unknown
      ensures Parse(Now(), querybuf) == Parse(old(Now()), querybuf)
    {
      hide Parse, Then, Piece;
      KindTaken(querybuf);
      if reqtype == Unknown { reqtype := if querybuf[0] == STAR then MultibulkReq else InlineReq; }
    }

    /** One request: its kind, its arguments, its execution. Not ok when the request is not complete or
        the client is closing. */
    method ProcessRequest() returns (ok: bool, ghost command: Argv)
      requires Valid() && !tooBig && !closing && querybuf != []
      modifies this
      ensures Valid() && freed == old(freed)
      ensures tooBig ==> !ok && |old(querybuf)| > INLINE_MAX_SIZE
      ensures OnArgument(old(Now()), |old(querybuf)|) ==> !tooBig && (ok ==> querybuf == [])
      ensures ok ==> !closing && |querybuf| < |old(querybuf)| && Now() == Idle
      ensures ok ==> executed == old(executed) + Emit(command)
      ensures ok ==> Parse(old(Now()), old(querybuf)) == Then(Emit(command), Parse(Idle, querybuf))
      ensures !ok && !tooBig ==> Parse(old(Now()), old(querybuf)) == Result(Now(), querybuf, [])
                                 && executed == old(executed)
    {
      hide Parse, Then, Piece;
      command := [];
      ghost var goal := Parse(Now(), querybuf);
      TakeKind();
      if reqtype == InlineReq {
        ok := ProcessInlineBuffer();
      } else {
        ok := ProcessMultibulkBuffer();
      }
      if ok {
        assert goal == Then(Emit(argv), Parse(Idle, querybuf));
        if argv != [] { executed := executed + [argv]; }
        command := argv;
        Reset();
      }
    }

    /** `processInputBuffer`: unless a size check fires, everything the buffer holds is parsed as `Parse`
        says, and executed. */
    method ProcessInputBuffer()
      requires Valid() && !tooBig
      modifies this
      ensures Valid() && freed == old(freed)
      ensures tooBig ==> |old(querybuf)| > INLINE_MAX_SIZE && !OnArgument(old(Now()), |old(querybuf)|)
      ensures !tooBig ==> var r := Parse(old(Now()), old(querybuf));
        Now() == r.p && querybuf == r.left && executed == old(executed) + r.commands
    {
      ghost var goal, done: seq<Argv> := Parse(Now(), querybuf), [];
      ThenThen([], [], goal);
      hide Parse, Then, Piece;
      while querybuf != []
        invariant Valid() && !tooBig && freed == old(freed)
        invariant executed == old(executed) + done && |querybuf| <= |old(querybuf)|
        invariant goal == Then(done, Parse(Now(), querybuf))
        invariant OnArgument(old(Now()), |old(querybuf)|) && querybuf != [] ==>
                    Now() == old(Now()) && querybuf == old(querybuf)
        decreases |querybuf|
      {
        if closing { break; }
        var ok;
        ghost var command;
        ok, command := ProcessRequest();
        if !ok {
          ThenCommands(done, Result(Now(), querybuf, []));
          assert done + [] == done;
          return;
        }
        ThenThen(done, Emit(command), Parse(Idle, querybuf));
        done := done + Emit(command);
      }
      NothingLeft(Now(), querybuf);
      ThenCommands(done, Result(Now(), querybuf, []));
      assert done + [] == done;
    }

    /** How much `readQueryFromClient` asks for. */
    function Readable(): int
      reads this
    {
      if reqtype == MultibulkReq && multibulklen != 0 && bulklen != -1 && bulklen >= MBULK_BIG_ARG then
        var remaining := bulklen + 2 - |querybuf|;
        if remaining < IOBUF_LEN then remaining else IOBUF_LEN
      else IOBUF_LEN
    }

    /** What `readQueryFromClient` does with bytes that `read` returned. A buffer that has outgrown the
        limit of the configuration frees the client. */
    method TakeBytes(chunk: bytes)
      requires Valid() && !tooBig && !freed && |chunk| <= Readable()
      modifies this
      ensures Valid() && (freed <==> |old(querybuf)| + |chunk| > limit)
      ensures tooBig ==> |old(querybuf)| + |chunk| > INLINE_MAX_SIZE
                         && !OnArgument(old(Now()), |old(querybuf)| + |chunk|)
      ensures !tooBig && !freed ==> var r := Parse(old(Now()), old(querybuf) + chunk);
        Now() == r.p && querybuf == r.left && executed == old(executed) + r.commands
    {
      hide Parse, Then, Piece;
      querybuf := querybuf + chunk;
      if |querybuf| > limit {
        freed := true;
        return;
      }
      ProcessInputBuffer();
    }

    /** `readQueryFromClient`: bytes are taken, a read that would block changes nothing, any other error
        and the end of the connection free the client. */
    method ReadQuery(outcome: ReadOutcome)
      requires Valid() && !tooBig && !freed
      requires outcome.Received? ==> 1 <= |outcome.chunk| <= Readable()
      modifies this
      ensures Valid()
      ensures outcome.Blocked? ==> !freed && !tooBig
      ensures outcome.Ended? ==> freed && !tooBig
      ensures !outcome.Received? ==>
                Now() == old(Now()) && querybuf == old(querybuf) && executed == old(executed)
      ensures outcome.Received? ==> (freed <==> |old(querybuf)| + |outcome.chunk| > limit)
      ensures tooBig ==> |old(querybuf)| + |outcome.chunk| > INLINE_MAX_SIZE
                         && !OnArgument(old(Now()), |old(querybuf)| + |outcome.chunk|)
      ensures outcome.Received? && !tooBig && !freed ==> var r := Parse(old(Now()), old(querybuf) + outcome.chunk);
        Now() == r.p && querybuf == r.left && executed == old(executed) + r.commands
    {
      hide Parse, Then, Piece;
      match outcome
      case Received(chunk) => TakeBytes(chunk);
      case Blocked =>
      case Ended => freed := true;
    }
  }

  /** A complete argument is the next piece; an incomplete one has to wait. */
  lemma BulkTaken(p: Parser, b: bytes, argv: Argv, rest: bytes)
    requires p.Multibulk? && p.multibulklen > 0 && 0 <= p.bulklen && p.bulklen + 2 <= |b|
    requires argv == p.argv + [b[0..p.bulklen]] && rest == b[p.bulklen + 2..]
    ensures p.multibulklen == 1 ==> Parse(p, b) == Then([argv], Parse(Idle, rest))
    ensures p.multibulklen > 1 ==> Parse(p, b) == Parse(Multibulk(p.multibulklen - 1, -1, argv), rest)
  {
    assert b[0..p.bulklen] == b[..p.bulklen];
    if p.multibulklen == 1 {
      ParseTakes(p, b, p.bulklen + 2, Idle, argv);
    } else {
      var next := Multibulk(p.multibulklen - 1, -1, argv);
      ParseTakes(p, b, p.bulklen + 2, next, []);
      ThenThen([], [], Parse(next, rest));
    }
  }

  lemma BulkWaits(p: Parser, b: bytes)
    requires p.Multibulk? && p.multibulklen > 0 && p.bulklen >= 0 && |b| < p.bulklen + 2
    ensures Parse(p, b) == Result(p, b, [])
  {
    ParseWaits(p, b);
  }

  // ---- the outcomes of looking for a bulk length line

  lemma LengthWaits(p: Parser, b: bytes)
    requires p.Multibulk? && p.multibulklen > 0 && p.bulklen == -1
    requires FindCR(b).None? || FindCR(b).value > |b| - 2
    ensures Parse(p, b) == Result(p, b, [])
  {
    ParseWaits(p, b);
  }

  ghost predicate BadLength(ll: Option<int>) {
    ll.None? || ll.value < 0 || ll.value > MAX_BULK
  }

  lemma LengthWrong(p: Parser, b: bytes)
    requires p.Multibulk? && p.multibulklen > 0 && p.bulklen == -1
    requires FindCR(b).Some? && FindCR(b).value <= |b| - 2
    requires b[0] == DOLLAR ==> FindCR(b).value > 0
    requires b[0] == DOLLAR ==> BadLength(ParseLL(b[1..FindCR(b).value]))
    ensures Parse(p, b) == Result(Closing, b, [])
  {
    TakeFails(p, b);
  }

  lemma LengthFound(p: Parser, b: bytes, ll: nat, rest: bytes)
    requires p.Multibulk? && p.multibulklen > 0 && p.bulklen == -1
    requires FindCR(b).Some? && FindCR(b).value <= |b| - 2 && b[0] == DOLLAR && FindCR(b).value > 0
    requires ParseLL(b[1..FindCR(b).value]) == Some(ll) && ll <= MAX_BULK && rest == b[FindCR(b).value + 2..]
    ensures Parse(p, b) == Parse(p.(bulklen := ll), rest)
  {
    ParseTakes(p, b, FindCR(b).value + 2, p.(bulklen := ll), []);
    ThenThen([], [], Parse(p.(bulklen := ll), rest));
  }

  /** The first byte of a request tells its kind. */
  lemma KindTaken(b: bytes)
    requires b != []
    ensures Parse(Idle, b) == Parse(if b[0] == STAR then NEW_MULTIBULK else Inline, b)
  {
    var next := if b[0] == STAR then NEW_MULTIBULK else Inline;
    ParseTakes(Idle, b, 0, next, []);
    assert b[0..] == b;
    ThenThen([], [], Parse(next, b));
  }

  lemma NothingLeft(p: Parser, b: bytes)
    requires p.Closing? || b == []
    ensures Parse(p, b) == Result(p, b, [])
  {
    ParseWaits(p, b);
  }

  /** A protocol error takes nothing and stops the parser. */
  lemma TakeFails(p: Parser, b: bytes)
    requires Piece(p, b) == Take(0, Closing, [])
    ensures Parse(p, b) == Result(Closing, b, [])
  {
    ParseTakes(p, b, 0, Closing, []);
    ParseWaits(Closing, b[0..]);
    assert b[0..] == b;
  }

  /** One read of a stream whose rest is tame: no check fires, the client is not freed, and the rest of
      the stream is as tame as before. */
  method ReadTame(c: Client, chunk: bytes, ghost later: bytes)
    requires c.Valid() && !c.tooBig && !c.freed && 1 <= |chunk| <= c.Readable()
    requires Waits(c.Now(), c.querybuf) && Tame(c.Now(), c.querybuf + (chunk + later))
    requires c.limit >= MAX_BULK + 2
    modifies c
    ensures c.Valid() && !c.tooBig && !c.freed
    ensures Waits(c.Now(), c.querybuf) && Tame(c.Now(), c.querybuf + later)
    ensures var r := Parse(old(c.Now()), old(c.querybuf) + chunk);
            c.Now() == r.p && c.querybuf == r.left && c.executed == old(c.executed) + r.commands
  {
    ghost var p, left := c.Now(), c.querybuf;
    WaitingFits(p, left, chunk + later);
    TameBounds(p, left + (chunk + later));
    assert !c.closing;
    ConcatAssoc(left, chunk, later);
    TameResumes(p, left + chunk, later);
    ParseStops(p, left + chunk);
    hide Parse, Tame, Piece;
    c.ReadQuery(Received(chunk));
  }

  ghost predicate Waits(p: Parser, b: bytes) {
    Piece(p, b).Wait?
  }

  lemma TameBounds(p: Parser, b: bytes)
    requires Tame(p, b)
    ensures p.Multibulk? ==> p.bulklen <= MAX_BULK
  {
  }

  /** A tame stream has nothing left waiting at its end. */
  lemma TameEnds(p: Parser, b: bytes)
    requires Waits(p, b) && Tame(p, b)
    ensures p == Idle && b == [] && Parse(p, b) == Result(p, b, [])
  {
    ParseWaits(p, b);
  }

  /** There is always something to ask for. */
  lemma SomeReadable(c: Client, rest: bytes)
    requires c.Valid() && Waits(c.Now(), c.querybuf) && Tame(c.Now(), c.querybuf + rest)
    ensures c.Readable() >= 1
  {
    WaitingFits(c.Now(), c.querybuf, rest);
  }

  /** What is still to be read, with what waits, completes the commands already executed to those of
      `goal`. */
  ghost predicate Serving(goal: Result, executed: seq<Argv>, p: Parser, left: bytes, rest: bytes) {
    Waits(p, left) && Tame(p, left + rest) && goal == Then(executed, Parse(p, left + rest))
  }

  lemma ServingStarts(stream: bytes)
    requires Tame(Idle, stream)
    ensures Serving(Parse(Idle, stream), [], Idle, [], stream)
  {
    assert [] + stream == stream;
    ThenThen([], [], Parse(Idle, stream));
    hide Parse;
  }

  /** One read moves its commands from those to come to those executed. */
  lemma ServingGoesOn(p: Parser, left: bytes, chunk: bytes, later: bytes, before: seq<Argv>, goal: Result)
    requires Serving(goal, before, p, left, chunk + later)
    ensures var r := Parse(p, left + chunk);
            Waits(r.p, r.left) && Tame(r.p, r.left + later) ==> Serving(goal, before + r.commands, r.p, r.left, later)
  {
    hide Parse, Then, Piece, Tame;
    var r := Parse(p, left + chunk);
    ConcatAssoc(left, chunk, later);
    ParseResumes(p, left + chunk, later);
    ThenThen(before, r.commands, Parse(r.p, r.left + later));
  }

  /** At its end everything has been executed. */
  lemma ServingEnds(p: Parser, left: bytes, executed: seq<Argv>, goal: Result)
    requires Serving(goal, executed, p, left, [])
    ensures p == Idle && left == [] && goal.commands == executed
  {
    assert left + [] == left;
    TameEnds(p, left);
    hide Parse, Then, Tame, Piece;
    ThenCommands(executed, Result(p, left, []));
    assert executed + [] == executed;
  }

  /** The next read of the stream, of whatever amount. */
  method ReadSome(c: Client, rest: bytes, ghost goal: Result) returns (later: bytes)
    requires c.Valid() && !c.tooBig && !c.freed && c.limit >= MAX_BULK + 2 && rest != []
    requires Serving(goal, c.executed, c.Now(), c.querybuf, rest)
    modifies c
    ensures c.Valid() && !c.tooBig && !c.freed && |later| < |rest|
    ensures Serving(goal, c.executed, c.Now(), c.querybuf, later)
  {
    hide Parse, Tame, Piece, Then, Waits;
    SomeReadable(c, rest);
    var n :| 1 <= n <= |rest| && n <= c.Readable();
    later := rest[n..];
    assert rest == rest[..n] + later;
    ServingGoesOn(c.Now(), c.querybuf, rest[..n], later, c.executed, goal);
    ReadTame(c, rest[..n], later);
  }

  /** A new client executes the commands of any stream of complete requests without overlong inline
      lines, in order, whatever amounts the reads return, and is idle with an empty buffer at its end. */
  method ServeStream(stream: bytes, limit: nat) returns (c: Client)
    requires Tame(Idle, stream) && limit >= MAX_BULK + 2
    ensures !c.tooBig && !c.freed
    ensures c.executed == Parse(Idle, stream).commands && c.querybuf == [] && c.Now() == Idle
  {
    c := new Client(limit);
    var rest := stream;
    ghost var goal := Parse(Idle, stream);
    ServingStarts(stream);
    hide Parse, Tame, Serving;
    while rest != []
      invariant fresh(c) && c.limit == limit && c.Valid() && !c.tooBig && !c.freed
      invariant Serving(goal, c.executed, c.Now(), c.querybuf, rest)
      decreases |rest|
    {
      rest := ReadSome(c, rest, goal);
    }
    ServingEnds(c.Now(), c.querybuf, c.executed, goal);
  }

  /** A new client that reads the printed commands executes exactly these commands, in order. */
  method Serve(stream: bytes, ghost cmds: seq<Argv>) returns (c: Client)
    requires (forall i :: 0 <= i < |cmds| ==> Fits(cmds[i])) && stream == EncodeAll(cmds)
    ensures !c.tooBig && !c.freed && c.executed == cmds && c.querybuf == [] && c.Now() == Idle
  {
    CommandsTame(cmds);
    CommandsParse(cmds);
    c := ServeStream(stream, MAX_QUERYBUF_LEN);
  }
}
