/** aof.c: the server's AOF fields and the functions that update them. Each is proved to be the step of
    the same name in `AofProtocol`, so what holds there after every run holds of this object. */
module Aof {
  import opened Bytes
  import opened Decimal
  import opened Resp
  import opened AofLoader
  import opened AofRewrite
  import opened AofProtocol

  const BLOCK_SIZE := 1024 * 1024 * 10  // AOF_RW_BUF_BLOCK_SIZE

  /** The blocks of the rewrite buffer, each by the bytes used in it. */
  type Blocks = seq<bytes>

  function Joined(blocks: Blocks): bytes {
    if blocks == [] then [] else Joined(blocks[..|blocks| - 1]) + blocks[|blocks| - 1]
  }

  /** Every block but the last is full. */
  ghost predicate BlocksOk(blocks: Blocks) {
    && (forall i :: 0 <= i < |blocks| - 1 ==> |blocks[i]| == BLOCK_SIZE)
    && (blocks != [] ==> |blocks[|blocks| - 1]| <= BLOCK_SIZE)
  }

  lemma JoinedGrows(blocks: Blocks, b: bytes)
    ensures Joined(blocks + [b]) == Joined(blocks) + b
  {
    assert (blocks + [b])[..|blocks|] == blocks;
  }

  lemma {:induction false} JoinedSize(blocks: Blocks)
    requires BlocksOk(blocks) && blocks != []
    ensures |Joined(blocks)| == (|blocks| - 1) * BLOCK_SIZE + |blocks[|blocks| - 1]|
  {
    var front := blocks[..|blocks| - 1];
    assert |Joined(blocks)| == |Joined(front)| + |blocks[|blocks| - 1]|;
    if front == [] {
      assert Joined(front) == [];
    } else {
      assert front[|front| - 1] == blocks[|blocks| - 2];
      hide Joined;
      JoinedSize(front);
    }
  }

  /** The last block takes in some more bytes. */
  lemma JoinedFills(blocks: Blocks, s: bytes, n: nat)
    requires blocks != [] && n <= |s| && BlocksOk(blocks) && |blocks[|blocks| - 1]| + n <= BLOCK_SIZE
    ensures var filled := blocks[|blocks| - 1 := blocks[|blocks| - 1] + s[..n]];
      BlocksOk(filled) && Joined(filled) + s[n..] == Joined(blocks) + s
  {
    var init, last := blocks[..|blocks| - 1], blocks[|blocks| - 1];
    var filled := blocks[|blocks| - 1 := last + s[..n]];
    assert filled[..|filled| - 1] == init;
    assert Joined(filled) == Joined(init) + (last + s[..n]);
    hide Joined;
    assert s == s[..n] + s[n..];
    ConcatAssoc(Joined(init), last, s[..n]);
    ConcatAssoc(Joined(init) + last, s[..n], s[n..]);
  }

  class RewriteBuffer {
    var blocks: Blocks

    ghost predicate Valid()
      reads this
    {
      BlocksOk(blocks)
    }

    ghost function Contents(): bytes
      reads this
    {
      Joined(blocks)
    }

    constructor ()
      ensures Valid() && Contents() == []
    {
      blocks := [];
    }

    /** `aofRewriteBufferReset`. */
    method Reset()
      modifies this
      ensures Valid() && Contents() == []
    {
      blocks := [];
    }

    /** `aofRewriteBufferSize`. */
    method Size() returns (size: nat)
      requires Valid()
      ensures size == |Contents()|
    {
      if blocks == [] { return 0; }
      JoinedSize(blocks);
      size := (|blocks| - 1) * BLOCK_SIZE;
      size := size + |blocks[|blocks| - 1]|;
    }

    /** `aofRewriteBufferAppend`: fills the last block, then allocates more. */
    method Append(s0: bytes)
      requires Valid()
      modifies this
      ensures Valid() && Contents() == old(Contents()) + s0
    {
      hide Joined;
      var s := s0;
      while s != []
        invariant Valid() && Contents() + s == old(Contents()) + s0
        decreases |s|, if blocks != [] && |blocks[|blocks| - 1]| < BLOCK_SIZE then 0 else 1
      {
        if blocks != [] {
          var free := BLOCK_SIZE - |blocks[|blocks| - 1]|;
          var thislen := if free < |s| then free else |s|;
          if thislen > 0 {
            JoinedFills(blocks, s, thislen);
            blocks := blocks[|blocks| - 1 := blocks[|blocks| - 1] + s[..thislen]];
            s := s[thislen..];
          }
        }
        if s != [] {
          JoinedGrows(blocks, []);
          blocks := blocks + [[]];
        }
      }
    }

    /** `aofRewriteBufferWrite`: appends the blocks to a file. */
    method WriteTo(file: bytes) returns (r: bytes)
      requires Valid()
      ensures r == file + Contents()
    {
      r := file;
      var i := 0;
      while i < |blocks|
        invariant i <= |blocks| && r == file + Joined(blocks[..i])
      {
        JoinedGrows(blocks[..i], blocks[i]);
        assert blocks[..i + 1] == blocks[..i] + [blocks[i]];
        r := r + blocks[i];
        i := i + 1;
      }
      assert blocks[..i] == blocks;
    }
  }

  /** `catAppendOnlyExpireAtCommand`. */
  method CatExpireAt(dst: bytes, argv: Argv, now: int) returns (r: bytes)
    requires |argv| >= 3
    ensures r == dst + EncodeCommand([PEXPIREAT, argv[1], Dec(When(argv, now))])
  {
    hide EncodeCommand, Dec;
    var when := Strtol(argv[2]);
    if Named(argv[0], EXPIRE) || Named(argv[0], SETEX) || Named(argv[0], EXPIREAT) { when := when * 1000; }
    if !Named(argv[0], EXPIREAT) { when := when + now; }
    var time := LongLongToString(when);
    r := CatCommand(dst, [PEXPIREAT, argv[1], time]);
  }

  /** A command as it is fed: itself, or its translation. */
  method PrintTranslated(dst: bytes, argv: Argv, now: int) returns (r: bytes)
    ensures r == dst + EncodeAll(Translated(argv, now))
  {
    hide EncodeCommand, EncodeAll, When, Named;
    if |argv| == 3 && (Named(argv[0], EXPIRE) || Named(argv[0], PEXPIRE) || Named(argv[0], EXPIREAT)) {
      r := CatExpireAt(dst, argv, now);
      EncodeOne([PEXPIREAT, argv[1], Dec(When(argv, now))]);
    } else if |argv| == 4 && (Named(argv[0], SETEX) || Named(argv[0], PSETEX)) {
      var first, second: Argv := [SET, argv[1], argv[3]], [PEXPIREAT, argv[1], Dec(When(argv, now))];
      r := CatCommand(dst, first);
      r := CatExpireAt(r, argv, now);
      EncodeOne(first);
      EncodeOne(second);
      EncodeAllConcat([first], [second]);
      assert [first] + [second] == Translated(argv, now);
      ConcatAssoc(dst, EncodeCommand(first), EncodeCommand(second));
    } else {
      r := CatCommand(dst, argv);
      EncodeOne(argv);
    }
  }

  /** The bytes `feedAppendOnlyFile` appends. */
  method PrintFed(selected: int, db: nat, argv: Argv, now: int) returns (b: bytes)
    ensures b == EncodeAll(FeedCommands(selected, db, Translated(argv, now)))
  {
    hide EncodeCommand, EncodeAll, Translated;
    b := [];
    ghost var cmds := Translated(argv, now);
    if db != selected {
      var index := LongLongToString(db);
      b := CatCommand(b, [SELECT, index]);
      EncodeOne([SELECT, index]);
      EncodeAllConcat([[SELECT, index]], cmds);
    } else {
      assert FeedCommands(selected, db, cmds) == cmds;
    }
    b := PrintTranslated(b, argv, now);
  }

  /** The state of a server that starts with the AOF off. */
  function Start(file: bytes, data: Dataset): State {
    State(Off, false, -1, file, [], None, [], false, false, data)
  }

  /** A queued command: the database and the time it runs at, whether its kind never writes, and whether this
      one does. */
  datatype QueuedCommand = QueuedCommand(db: nat, argv: Argv, now: int, readonly: bool, dirty: bool)

  /** What is still propagated of a queue, with or without a MULTI propagated already. */
  function EventsFrom(queue: seq<QueuedCommand>, last: nat, begun: bool): seq<Event> {
    if queue == [] then (if begun then [EndBlock(last)] else [])
    else
      var q := queue[0];
      (if !begun && !q.readonly then [BeginBlock(q.db)] else [])
      + (if q.dirty then [Write(q.db, q.argv, q.now)] else [])
      + EventsFrom(queue[1..], last, begun || !q.readonly)
  }

  /** What EXEC does: its commands that modify the dataset, as one block, if any of them might. */
  function BlockEvents(queue: seq<QueuedCommand>, last: nat): seq<Event> {
    EventsFrom(queue, last, false)
  }

  /** The commands of the queue that modified the dataset, in order. */
  function Writes(queue: seq<QueuedCommand>): seq<Event> {
    if queue == [] then []
    else (if queue[0].dirty then [Write(queue[0].db, queue[0].argv, queue[0].now)] else []) + Writes(queue[1..])
  }

  lemma {:induction false} BegunBlock(queue: seq<QueuedCommand>, last: nat)
    ensures EventsFrom(queue, last, true) == Writes(queue) + [EndBlock(last)]
  {
    if queue != [] { BegunBlock(queue[1..], last); }
  }

  /** A queue that only reads propagates nothing; else its writes go, in order, between one MULTI, in the
      database of the first command that may write, and one EXEC. */
  lemma {:induction false} BlockIs(queue: seq<QueuedCommand>, last: nat, n: nat)
    requires n <= |queue| && (n < |queue| ==> !queue[n].readonly)
    requires forall i :: 0 <= i < n ==> queue[i].readonly && !queue[i].dirty
    ensures BlockEvents(queue, last)
         == if n == |queue| then [] else [BeginBlock(queue[n].db)] + Writes(queue) + [EndBlock(last)]
  {
    if n > 0 {
      assert forall i :: 0 <= i < n - 1 ==> queue[1..][i] == queue[i + 1];
      assert n < |queue| ==> queue[1..][n - 1] == queue[n];
      BlockIs(queue[1..], last, n - 1);
      assert Writes(queue) == Writes(queue[1..]);
    } else if queue != [] {
      BegunBlock(queue, last);
      BegunBlock(queue[1..], last);
    }
  }

  lemma ChildKnown(exec: Exec, s: State, ok: bool)
    requires Inv(exec, s) && Possible(exec, s, ChildDone(ok))
    ensures s.child.Some? && SnapshotOk(s.child.value)
  {
  }

  lemma EventsUnfold(queue: seq<QueuedCommand>, j: nat, last: nat, begun: bool)
    requires j < |queue|
    ensures var es, q := EventsFrom(queue[j..], last, begun), queue[j];
      if !begun && !q.readonly then
        es != [] && es[0] == BeginBlock(q.db) && es[1..] == EventsFrom(queue[j..], last, true)
      else if q.dirty then
        es != [] && es[0] == Write(q.db, q.argv, q.now) && es[1..] == EventsFrom(queue[j + 1..], last, begun)
      else
        es == EventsFrom(queue[j + 1..], last, begun)
  {
    assert queue[j..][0] == queue[j] && queue[j..][1..] == queue[j + 1..];
  }

  lemma EventsEnd(queue: seq<QueuedCommand>, last: nat, begun: bool)
    requires queue == []
    ensures EventsFrom(queue, last, begun) == if begun then [EndBlock(last)] else []
    ensures begun ==> EventsFrom(queue, last, begun)[1..] == []
  {
  }

  lemma AfterNothing(exec: Exec, s: State)
    ensures forall t :: PossibleRun(exec, t, []) && After(exec, t, []) == t
  {
  }

  class Server {
    const exec: Exec
    const rewriteBuffer: RewriteBuffer
    var mode: Mode
    var fdOpen: bool
    var selected: int
    var file: bytes
    var buf: bytes
    var child: Option<Snapshot>
    ghost var open: bool           // whether a MULTI has been propagated without its EXEC
    var scheduled: bool
    var data: Dataset

    ghost function Now(): State
      reads this, rewriteBuffer
    {
      State(mode, fdOpen, selected, file, buf, child, rewriteBuffer.Contents(), open, scheduled, data)
    }

    /** The server's invariant: the one every reachable state of the protocol has. */
    ghost predicate Valid()
      reads this, rewriteBuffer
    {
      Sane(exec) && rewriteBuffer.Valid() && Inv(exec, Now())
    }

    constructor (exec: Exec, file: bytes, data: Dataset)
      requires Sane(exec) && |data| <= LLONG_MAX
      ensures Valid() && fresh(rewriteBuffer)
      ensures Now() == Start(file, data) && StartsOff(Now()) && this.exec == exec
    {
      this.exec := exec;
      this.file, this.data := file, data;
      mode, fdOpen, selected, buf, child, open, scheduled := Off, false, -1, [], None, false, false;
      rewriteBuffer := new RewriteBuffer();
    }

    /** `feedAppendOnlyFile`. */
    method FeedFile(db: nat, argv: Argv, now: int)
      requires rewriteBuffer.Valid()
      modifies this`selected, this`buf, rewriteBuffer
      ensures rewriteBuffer.Valid() && Now() == Feed(old(Now()), db, Translated(argv, now))
    {
      var b := PrintFed(selected, db, argv, now);
      selected := db;
      if mode.On? { buf := buf + b; }
      if child.Some? { rewriteBuffer.Append(b); }
    }

    /** `propagate`, to the AOF. */
    method PropagateCommand(db: nat, argv: Argv, now: int)
      requires rewriteBuffer.Valid()
      modifies this`selected, this`buf, rewriteBuffer
      ensures rewriteBuffer.Valid() && Now() == Propagate(old(Now()), db, Translated(argv, now))
    {
      if !mode.Off? { FeedFile(db, argv, now); }
    }

    /** A command that modified the dataset, and its propagation (`call`). */
    method Execute(db: nat, argv: Argv, now: int)
      requires Valid() && Possible(exec, Now(), Write(db, argv, now))
      modifies this, rewriteBuffer
      ensures Valid() && Now() == Step(exec, old(Now()), Write(db, argv, now))
    {
      hide Inv, Sane, Translated;
      StepKeepsInv(exec, Now(), Write(db, argv, now));
      data := Effect(exec, data, db, argv, now);
      PropagateCommand(db, argv, now);
    }

    /** `execCommandPropagateMulti`, and the EXEC that `call` propagates when the block is through. */
    method PropagateBlock(e: Event)
      requires Valid() && Possible(exec, Now(), e) && (e.BeginBlock? || e.EndBlock?)
      modifies this, rewriteBuffer
      ensures Valid() && Now() == Step(exec, old(Now()), e)
    {
      StepKeepsInv(exec, Now(), e);
      hide Inv, Sane;
      assert |MULTI| == 5 && |EXEC| == 4 && |EXPIRE| == 6 && |PEXPIRE| == 7 && |EXPIREAT| == 8;
      PropagateCommand(e.db, [if e.BeginBlock? then MULTI else EXEC], 0);
      open := e.BeginBlock?;
    }

    /** The loop of `execCommand` over the queue: a MULTI goes before the first command that may write, and
        an EXEC follows the last one. `last` is the database at the end. */
    method ExecCommand(queue: seq<QueuedCommand>, last: nat)
      requires Valid() && !Now().open && PossibleRun(exec, Now(), BlockEvents(queue, last))
      modifies this, rewriteBuffer
      ensures Valid() && Now() == After(exec, old(Now()), BlockEvents(queue, last))
    {
      hide Inv, Sane, Step, Possible;
      ghost var goal := After(exec, Now(), BlockEvents(queue, last));
      var mustPropagate := false;
      var j := 0;
      assert queue[0..] == queue;
      while j < |queue|
        invariant j <= |queue| && Valid()
        invariant PossibleRun(exec, Now(), EventsFrom(queue[j..], last, mustPropagate))
        invariant After(exec, Now(), EventsFrom(queue[j..], last, mustPropagate)) == goal
      {
        var q := queue[j];
        EventsUnfold(queue, j, last, mustPropagate);
        if !mustPropagate && !q.readonly {
          PropagateBlock(BeginBlock(q.db));
          mustPropagate := true;
          EventsUnfold(queue, j, last, true);
        }
        if q.dirty { Execute(q.db, q.argv, q.now); }
        j := j + 1;
      }
      EventsEnd(queue[j..], last, mustPropagate);
      AfterNothing(exec, Now());
      if mustPropagate { PropagateBlock(EndBlock(last)); }
    }

    /** `flushAppendOnlyFile`; `postponed` when an fsync in progress delays it. */
    method FlushFile(postponed: bool)
      requires Valid()
      modifies this
      ensures Valid() && Now() == Step(exec, old(Now()), Flush(postponed))
    {
      hide Inv, Sane;
      StepKeepsInv(exec, Now(), Flush(postponed));
      if buf == [] {
        assert file + buf == file;
        return;
      }
      if postponed { return; }
      file := file + buf;
      buf := [];
    }

    /** `rewriteAppendOnlyFileBackground`, given the outcome of the fork and what a child would see. */
    method RewriteBackground(forkOk: bool, snapshot: Snapshot) returns (ok: bool)
      modifies this
      ensures (Now(), ok) == Fork(old(Now()), forkOk, snapshot)
    {
      if child.Some? { return false; }
      if !forkOk { return false; }
      scheduled := false;
      child := Some(snapshot);
      selected := -1;
      return true;
    }

    /** `startAppendOnly`. */
    method StartAppendOnly(openOk: bool, forkOk: bool, snapshot: Snapshot) returns (ok: bool)
      requires Valid() && Possible(exec, Now(), TurnOn(openOk, forkOk, snapshot))
      modifies this
      ensures Valid() && Now() == Step(exec, old(Now()), TurnOn(openOk, forkOk, snapshot))
      ensures ok <==> mode.WaitRewrite?
    {
      assert mode.Off?;
      hide Inv, Sane, Possible;
      StepKeepsInv(exec, Now(), TurnOn(openOk, forkOk, snapshot));
      fdOpen := openOk;
      if !openOk { return false; }
      ok := RewriteBackground(forkOk, snapshot);
      if ok { mode := WaitRewrite; }
    }

    /** `stopAppendOnly`. */
    method StopAppendOnly()
      requires Valid() && Possible(exec, Now(), TurnOff)
      modifies this, rewriteBuffer
      ensures Valid() && Now() == Step(exec, old(Now()), TurnOff)
    {
      hide Inv, Sane, Possible;
      StepKeepsInv(exec, Now(), TurnOff);
      file := file + buf;
      buf := [];
      fdOpen := false;
      selected := -1;
      mode := Off;
      if child.Some? {
        rewriteBuffer.Reset();
        child := None;
      }
    }

    /** `backgroundRewriteDoneHandler`; `ok` when the child exited with success and the temporary file
        could be completed and renamed. */
    method RewriteDone(ok: bool)
      requires Valid() && Possible(exec, Now(), ChildDone(ok))
      modifies this, rewriteBuffer
      ensures Valid() && Now() == Step(exec, old(Now()), ChildDone(ok))
    {
      ChildKnown(exec, Now(), ok);
      StepKeepsInv(exec, Now(), ChildDone(ok));
      hide Inv, Sane, Dump, Possible, Switched, Cleanup;
      if ok { SwitchFile(); }
      Finish();
    }

    /** The new file takes the place of the old one. */
    method SwitchFile()
      requires rewriteBuffer.Valid() && child.Some? && SnapshotOk(child.value)
      modifies this`file, this`selected, this`buf, this`mode
      ensures Now() == Switched(old(Now()))
    {
      hide Dump, SnapshotOk;
      // what the child has left in the temporary file
      var tmp := RewriteFile(child.value);
      file := rewriteBuffer.WriteTo(tmp);
      if fdOpen {
        selected := -1;
        buf := [];
      }
      if mode.WaitRewrite? { mode := On; }
    }

    /** The end of `backgroundRewriteDoneHandler`, with or without success. */
    method Finish()
      modifies this`child, this`scheduled, rewriteBuffer
      ensures rewriteBuffer.Valid() && Now() == Cleanup(old(Now()))
    {
      rewriteBuffer.Reset();
      child := None;
      if mode.WaitRewrite? { scheduled := true; }
    }

    /** Any event of the protocol. */
    method Take(e: Event)
      requires Valid() && Possible(exec, Now(), e)
      modifies this, rewriteBuffer
      ensures Valid() && Now() == Step(exec, old(Now()), e)
    {
      match e {
        case Write(db, argv, now) => Execute(db, argv, now);
        case Flush(postponed) => FlushFile(postponed);
        case TurnOn(openOk, forkOk, snapshot) => var started := StartAppendOnly(openOk, forkOk, snapshot);
        case TurnOff => StopAppendOnly();
        case ChildDone(ok) => RewriteDone(ok);
        case BeginBlock(db) => PropagateBlock(e);
        case EndBlock(db) => PropagateBlock(e);
        case _ => Background(e);
      }
    }

    /** A rewrite asked for: begun now, or when the child of a dump is gone. */
    method Background(e: Event)
      requires Valid() && Possible(exec, Now(), e) && (e.Rewrite? || e.Schedule?)
      modifies this
      ensures Valid() && Now() == Step(exec, old(Now()), e)
    {
      StepKeepsInv(exec, Now(), e);
      hide Inv, Sane;
      match e {
        case Rewrite(forkOk, snapshot) => var started := RewriteBackground(forkOk, snapshot);
        case Schedule => scheduled := true;
      }
    }
  }

  /** Any run of a server that starts with the AOF off: whenever it is on, the file with what is still
      buffered reloads to the dataset. */
  method Serve(exec: Exec, file: bytes, data: Dataset, es: seq<Event>) returns (server: Server)
    requires Sane(exec) && |data| <= LLONG_MAX && PossibleRun(exec, Start(file, data), es)
    ensures server.Valid() && server.Now() == After(exec, Start(file, data), es)
    ensures server.mode.On? ==> Reloads(exec, server.file + server.buf, server.data, server.Now().open)
  {
    server := new Server(exec, file, data);
    AofSafety(exec, Start(file, data), [], es);
    hide Inv, Sane, Step, Possible, StartsOff;
    var i := 0;
    assert es[0..] == es;
    while i < |es|
      invariant i <= |es| && fresh(server) && fresh(server.rewriteBuffer) && server.Valid() && server.exec == exec
      invariant PossibleRun(exec, server.Now(), es[i..])
      invariant After(exec, server.Now(), es[i..]) == After(exec, Start(file, data), es)
    {
      assert es[i..][1..] == es[i + 1..];
      server.Take(es[i]);
      i := i + 1;
    }
  }
}
