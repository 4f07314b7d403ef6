/** aof.c: the append-only file and its background rewrite, as a state machine over the events that
    change the server's AOF state. The file is its bytes, the child is the snapshot it was forked with. */
module AofProtocol {
  import opened Bytes
  import opened Decimal
  import opened Resp
  import opened AofLoader
  import opened AofRewrite

  datatype Mode = Off | On | WaitRewrite

  datatype State = State(
    mode: Mode,            // aof_state
    fdOpen: bool,          // aof_fd != -1
    selected: int,         // aof_selected_db
    file: bytes,           // contents of aof_filename
    buf: bytes,            // aof_buf
    child: Option<Snapshot>,
    diff: bytes,           // aof_rewrite_buf_blocks
    open: bool,            // a MULTI has been propagated and its EXEC has not
    scheduled: bool,       // aof_rewrite_scheduled
    data: Dataset)

  datatype Event =
    | Write(db: nat, argv: Argv, now: int) // a command that modified the dataset, and the time
    | BeginBlock(db: nat)                  // execCommandPropagateMulti
    | EndBlock(db: nat)                    // the propagation of EXEC
    | Flush(postponed: bool)               // flushAppendOnlyFile
    | TurnOn(openOk: bool, forkOk: bool, snapshot: Snapshot)  // startAppendOnly
    | TurnOff                              // stopAppendOnly
    | Rewrite(forkOk: bool, snapshot: Snapshot)  // rewriteAppendOnlyFileBackground
    | Schedule                             // BGREWRITEAOF while an RDB child runs
    | ChildDone(ok: bool)                  // backgroundRewriteDoneHandler

  // ---- the steps

  const EXPIRE: bytes := [69, 88, 80, 73, 82, 69]
  const PEXPIRE: bytes := [80, 69, 88, 80, 73, 82, 69]
  const EXPIREAT: bytes := [69, 88, 80, 73, 82, 69, 65, 84]
  const SETEX: bytes := [83, 69, 84, 69, 88]
  const PSETEX: bytes := [80, 83, 69, 84, 69, 88]

  /** The absolute time, in milliseconds, that the third argument means. */
  function When(argv: Argv, now: int): int
    requires |argv| >= 3
  {
    var seconds := Named(argv[0], EXPIRE) || Named(argv[0], SETEX) || Named(argv[0], EXPIREAT);
    var when := if seconds then Strtol(argv[2]) * 1000 else Strtol(argv[2]);
    if Named(argv[0], EXPIREAT) then when else when + now
  }

  /** What a command is fed as: commands that set an expire time do so with an absolute one. */
  function Translated(argv: Argv, now: int): (cmds: seq<Argv>)
    ensures cmds != []
  {
    if |argv| == 3 && (Named(argv[0], EXPIRE) || Named(argv[0], PEXPIRE) || Named(argv[0], EXPIREAT)) then
      [[PEXPIREAT, argv[1], Dec(When(argv, now))]]
    else if |argv| == 4 && (Named(argv[0], SETEX) || Named(argv[0], PSETEX)) then
      [[SET, argv[1], argv[3]], [PEXPIREAT, argv[1], Dec(When(argv, now))]]
    else [argv]
  }

  /** The commands `feedAppendOnlyFile` prints: a SELECT when the database changes, then the command. */
  function FeedCommands(selected: int, db: nat, cmds: seq<Argv>): seq<Argv> {
    (if db != selected then [[SELECT, Dec(db)]] else []) + cmds
  }

  function Feed(s: State, db: nat, cmds: seq<Argv>): State {
    var b := EncodeAll(FeedCommands(s.selected, db, cmds));
    s.(selected := db,
       buf := if s.mode.On? then s.buf + b else s.buf,
       diff := if s.child.Some? then s.diff + b else s.diff)
  }

  /** `propagate`. */
  function Propagate(s: State, db: nat, cmds: seq<Argv>): State {
    if s.mode.Off? then s else Feed(s, db, cmds)
  }

  /** The dataset after commands that run one after the other, if all of them are known. */
  function RunAll(exec: Exec, data: Dataset, db: nat, cmds: seq<Argv>): Option<Dataset>
    decreases |cmds|
  {
    if cmds == [] then Some(data)
    else match exec(data, db, cmds[0])
      case None => None
      case Some(d) => RunAll(exec, d, db, cmds[1..])
  }

  /** What a command does at a given time: what its translation does. */
  function Effect(exec: Exec, data: Dataset, db: nat, argv: Argv, now: int): Dataset {
    match RunAll(exec, data, db, Translated(argv, now)) case Some(d) => d case None => data
  }

  function FlushNow(s: State): State {
    s.(file := s.file + s.buf, buf := [])
  }

  /** `rewriteAppendOnlyFileBackground`: the new state and whether a child was started. */
  function Fork(s: State, forkOk: bool, snapshot: Snapshot): (State, bool) {
    if s.child.Some? || !forkOk then (s, false)
    else (s.(scheduled := false, child := Some(snapshot), selected := -1), true)
  }

  /** The end of `backgroundRewriteDoneHandler`: the buffer and the child are dropped. */
  function Cleanup(s: State): State {
    s.(diff := [], child := None, scheduled := s.scheduled || s.mode.WaitRewrite?)
  }

  /** The switch to the rewritten file: what the child wrote, then the parent's differences. */
  function Switch(s: State): State
    requires s.child.Some?
  {
    Cleanup(Switched(s))
  }

  function Switched(s: State): State
    requires s.child.Some?
  {
    var written := s.(file := Dump(s.child.value) + s.diff);
    var switched := if s.fdOpen then written.(selected := -1, buf := []) else written;
    switched.(mode := if s.mode.WaitRewrite? then On else s.mode)
  }

  function Step(exec: Exec, s: State, e: Event): State
    requires e.ChildDone? && e.ok ==> s.child.Some?
  {
    match e
    case Write(db, argv, now) =>
      Propagate(s.(data := Effect(exec, s.data, db, argv, now)), db, Translated(argv, now))
    case BeginBlock(db) => Propagate(s, db, [[MULTI]]).(open := true)
    case EndBlock(db) => Propagate(s, db, [[EXEC]]).(open := false)
    case Flush(postponed) => if postponed then s else FlushNow(s)
    case TurnOn(openOk, forkOk, snapshot) =>
      if !openOk then s.(fdOpen := false)
      else
        var (s', ok) := Fork(s.(fdOpen := true), forkOk, snapshot);
        if ok then s'.(mode := WaitRewrite) else s'
    case TurnOff =>
      var s' := FlushNow(s).(fdOpen := false, selected := -1, mode := Off);
      if s.child.Some? then s'.(diff := [], child := None) else s'
    case Rewrite(forkOk, snapshot) => Fork(s, forkOk, snapshot).0
    case Schedule => s.(scheduled := true)
    case ChildDone(ok) => if ok then Switch(s) else Cleanup(s)
  }

  ghost predicate AllOrdinary(cmds: seq<Argv>) {
    AllWellSized(cmds) && forall i :: 0 <= i < |cmds| ==> Ordinary(cmds[i][0])
  }

  /** When an event can happen. A snapshot lists the dataset at the moment of the fork, and no key of it has
      expired; a command that modified the dataset is one of those that do; writes, opens and renames of a
      child that succeeded succeed. Everything but MULTI may happen inside a block: a rewrite may be asked for there. */
  ghost predicate Possible(exec: Exec, s: State, e: Event) {
    match e
    case Write(db, argv, now) =>
      && AllOrdinary(Translated(argv, now)) && db < |s.data|
      && RunAll(exec, s.data, db, Translated(argv, now)).Some?
    case BeginBlock(db) => !s.open && db < |s.data|
    case EndBlock(db) => s.open && db < |s.data|
    case TurnOn(_, _, snapshot) => s.mode.Off? && Describes(snapshot, s.data)
    case TurnOff => !s.mode.Off?
    case Rewrite(_, snapshot) => Describes(snapshot, s.data)
    case ChildDone(_) => s.child.Some?
    case _ => true
  }

  // ---- what every step keeps

  /** Loading `b` comes to `c` and goes on from there. */
  ghost predicate LeadsTo(exec: Exec, b: bytes, n: nat, c: Client) {
    forall rest :: Load(exec, Fresh(n), b + rest) == Load(exec, c, rest)
  }

  /** The loader has the dataset, is in the database the next command is taken to be for, if one is, and is
      inside MULTI only where a block is open. */
  ghost predicate InStep(c: Client, data: Dataset, selected: int, open: bool) {
    c.data == data && (selected == -1 || c.db == selected) && (c.multi ==> open) && !c.stopped
  }

  ghost predicate Tracks(exec: Exec, b: bytes, data: Dataset, selected: int, open: bool) {
    exists c :: LeadsTo(exec, b, |data|, c) && InStep(c, data, selected, open)
  }

  ghost predicate Inv(exec: Exec, s: State) {
    && |s.data| <= LLONG_MAX
    && -1 <= s.selected < |s.data|
    && (s.mode.On? ==> Tracks(exec, s.file + s.buf, s.data, s.selected, s.open))
    && (s.mode.On? || s.mode.WaitRewrite? ==> s.fdOpen)
    && (!s.mode.Off? && s.child.Some? ==> Tracks(exec, Dump(s.child.value) + s.diff, s.data, s.selected, s.open))
    && (s.child.Some? ==> SnapshotOk(s.child.value))
    && (s.child.None? ==> s.diff == [])
    && (!s.mode.On? ==> s.buf == [])
  }

  lemma LeadsToLoads(exec: Exec, b: bytes, n: nat, c: Client)
    requires LeadsTo(exec, b, n, c) && !c.multi && !c.stopped
    ensures Load(exec, Fresh(n), b) == Some(c)
  {
    assert b + [] == b;
    assert Load(exec, Fresh(n), b + []) == Load(exec, c, []);
  }

  /** Commands, fed for their database, take a loader in step with `data` to one in step with `data'`. */
  ghost predicate Moves(exec: Exec, data: Dataset, open: bool, db: nat, cmds: seq<Argv>, data': Dataset, open': bool) {
    && AllWellSized(cmds) && db < |data| == |data'|
    && forall c: Client :: InStep(c, data, db, open) ==> InStep(Replay(exec, c, cmds), data', db, open')
  }

  /** Appending fed commands keeps a byte string in step with the dataset. */
  lemma FeedTracks(exec: Exec, b: bytes, data: Dataset, selected: int, open: bool, db: nat, cmds: seq<Argv>,
                   data': Dataset, open': bool)
    requires Tracks(exec, b, data, selected, open) && |data| <= LLONG_MAX
    requires Moves(exec, data, open, db, cmds, data', open')
    ensures Tracks(exec, b + EncodeAll(FeedCommands(selected, db, cmds)), data', db, open')
  {
    var c :| LeadsTo(exec, b, |data|, c) && InStep(c, data, selected, open);
    var fed := FeedCommands(selected, db, cmds);
    assert InStep(c.(db := db), data, db, open);
    var c' := Replay(exec, c.(db := db), cmds);
    FeedReplays(exec, c, selected, db, cmds);
    LeadsToExtends(exec, b, |data|, c, fed);
    hide EncodeAll, FeedCommands, LeadsTo, Replay, InStep;
    assert LeadsTo(exec, b + EncodeAll(fed), |data'|, c') && InStep(c', data', db, open');
  }

  lemma LeadsToExtends(exec: Exec, b: bytes, n: nat, c: Client, cmds: seq<Argv>)
    requires LeadsTo(exec, b, n, c) && AllWellSized(cmds)
    ensures LeadsTo(exec, b + EncodeAll(cmds), n, Replay(exec, c, cmds))
  {
    hide EncodeAll, Replay, Load;
    forall rest ensures Load(exec, Fresh(n), b + EncodeAll(cmds) + rest) == Load(exec, Replay(exec, c, cmds), rest) {
      LoadReplays(exec, c, cmds, rest);
      assert b + EncodeAll(cmds) + rest == b + (EncodeAll(cmds) + rest);
    }
  }

  lemma FeedReplays(exec: Exec, c: Client, selected: int, db: nat, cmds: seq<Argv>)
    requires db < |c.data| <= LLONG_MAX && AllWellSized(cmds)
    requires selected == -1 || c.db == selected
    ensures AllWellSized(FeedCommands(selected, db, cmds))
    ensures Replay(exec, c, FeedCommands(selected, db, cmds)) == Replay(exec, c.(db := db), cmds)
  {
    SelectRuns(exec, c, db);
    hide RunOne;
    var fed := FeedCommands(selected, db, cmds);
    if db != selected {
      assert fed[0] == [SELECT, Dec(db)] && fed[1..] == cmds;
      assert Replay(exec, c, fed) == Replay(exec, RunOne(exec, c, fed[0]), fed[1..]);
    } else {
      assert fed == cmds && c == c.(db := db);
    }
  }

  /** Ordinary commands do to a loader's dataset what they do to the server's. */
  lemma {:induction false} OrdinaryReplay(exec: Exec, c: Client, cmds: seq<Argv>)
    requires Sane(exec) && AllOrdinary(cmds) && RunAll(exec, c.data, c.db, cmds).Some?
    ensures Replay(exec, c, cmds) == c.(data := RunAll(exec, c.data, c.db, cmds).value)
    ensures |RunAll(exec, c.data, c.db, cmds).value| == |c.data|
    decreases |cmds|
  {
    if cmds != [] {
      RunKeepsSize(exec, c.data, c.db, cmds[0]);
      assert Ordinary(cmds[0][0]);
      hide Sane, Ordinary;
      var c1 := c.(data := exec(c.data, c.db, cmds[0]).value);
      OrdinaryStep(exec, c, cmds[0]);
      OrdinaryReplay(exec, c1, cmds[1..]);
    }
  }

  lemma OrdinaryStep(exec: Exec, c: Client, argv: Argv)
    requires |argv| > 0 && Ordinary(argv[0]) && exec(c.data, c.db, argv).Some?
    ensures RunOne(exec, c, argv) == c.(data := exec(c.data, c.db, argv).value)
  {
    hide Named;
  }

  lemma WriteMoves(exec: Exec, data: Dataset, open: bool, db: nat, cmds: seq<Argv>)
    requires Sane(exec) && AllOrdinary(cmds) && db < |data| && RunAll(exec, data, db, cmds).Some?
    ensures Moves(exec, data, open, db, cmds, RunAll(exec, data, db, cmds).value, open)
  {
    OrdinaryReplay(exec, Client(data, db, false, false), cmds);
    forall c: Client | InStep(c, data, db, open)
      ensures InStep(Replay(exec, c, cmds), RunAll(exec, data, db, cmds).value, db, open)
    {
      OrdinaryReplay(exec, c, cmds);
    }
    hide Sane, Replay, RunAll;
  }

  lemma BlockRuns(exec: Exec, c: Client)
    ensures RunOne(exec, c, [MULTI]) == c.(multi := true) && RunOne(exec, c, [EXEC]) == c.(multi := false)
    ensures WellSized([MULTI]) && WellSized([EXEC])
  {
    assert |SELECT| == 6 && |MULTI| == 5 && |EXEC| == 4;
    assert Named(MULTI, MULTI) && Named(EXEC, EXEC);
  }

  /** MULTI and EXEC touch nothing but the block. */
  lemma BlockMoves(exec: Exec, data: Dataset, open: bool, db: nat)
    requires db < |data|
    ensures Moves(exec, data, open, db, [[MULTI]], data, true) && Moves(exec, data, open, db, [[EXEC]], data, false)
  {
    BlockRuns(exec, Client(data, db, false, false));
    hide RunOne, WellSized, Replay;
    forall c: Client | InStep(c, data, db, open)
      ensures InStep(Replay(exec, c, [[MULTI]]), data, db, true) && InStep(Replay(exec, c, [[EXEC]]), data, db, false)
    {
      BlockRuns(exec, c);
      ReplayOne(exec, c, [MULTI]);
      ReplayOne(exec, c, [EXEC]);
    }
  }

  lemma ReplayOne(exec: Exec, c: Client, argv: Argv)
    requires |argv| > 0
    ensures Replay(exec, c, [argv]) == RunOne(exec, c, argv)
  {
    var cmds: seq<Argv> := [argv];
    assert cmds[1..] == [];
    hide RunOne;
  }

  /** At the fork the child's file stands for the dataset. */
  lemma ForkTracks(exec: Exec, snapshot: Snapshot, data: Dataset)
    requires Sane(exec) && Describes(snapshot, data)
    ensures forall open :: Tracks(exec, Dump(snapshot) + [], data, -1, open)
  {
    DumpRebuilds(exec, Fresh(|data|), snapshot, data, 0);
    var c := Replay(exec, Fresh(|data|), DumpFrom(snapshot, 0));
    forall rest ensures Load(exec, Fresh(|data|), Dump(snapshot) + [] + rest) == Load(exec, c, rest) {
      LoadReplays(exec, Fresh(|data|), DumpFrom(snapshot, 0), rest);
      assert Dump(snapshot) + [] == Dump(snapshot);
    }
    assert LeadsTo(exec, Dump(snapshot) + [], |data|, c) && forall open :: InStep(c, data, -1, open);
  }

  lemma Forgets(exec: Exec, b: bytes, data: Dataset, selected: int, open: bool)
    requires Tracks(exec, b, data, selected, open)
    ensures Tracks(exec, b, data, -1, open)
  {
    var c :| LeadsTo(exec, b, |data|, c) && InStep(c, data, selected, open);
    assert LeadsTo(exec, b, |data|, c) && InStep(c, data, -1, open);
  }

  /** Every possible step keeps the invariant. */
  lemma StepKeepsInv(exec: Exec, s: State, e: Event)
    requires Sane(exec) && Inv(exec, s) && Possible(exec, s, e)
    ensures Inv(exec, Step(exec, s, e))
  {
    hide Sane, Tracks, Dump;
    match e {
      case Write(db, argv, now) =>
        WriteMoves(exec, s.data, s.open, db, Translated(argv, now));
        PropagateKeepsInv(exec, s, db, Translated(argv, now), Effect(exec, s.data, db, argv, now), s.open);
      case BeginBlock(db) =>
        BlockMoves(exec, s.data, s.open, db);
        PropagateKeepsInv(exec, s, db, [[MULTI]], s.data, true);
      case EndBlock(db) =>
        BlockMoves(exec, s.data, s.open, db);
        PropagateKeepsInv(exec, s, db, [[EXEC]], s.data, false);
      case Flush(postponed) =>
        assert s.file + s.buf + [] == s.file + s.buf;
      case TurnOn(openOk, forkOk, snapshot) => ForkTracks(exec, snapshot, s.data);
      case TurnOff => assert s.file + s.buf + [] == s.file + s.buf;
      case Rewrite(forkOk, snapshot) =>
        ForkTracks(exec, snapshot, s.data);
        if s.mode.On? { Forgets(exec, s.file + s.buf, s.data, s.selected, s.open); }
      case Schedule =>
      case ChildDone(ok) => if ok { SwitchKeepsInv(exec, s); }
    }
  }

  /** Commands that are fed keep both byte strings in step with what they do. */
  lemma PropagateKeepsInv(exec: Exec, s: State, db: nat, cmds: seq<Argv>, data: Dataset, open: bool)
    requires Inv(exec, s) && Moves(exec, s.data, s.open, db, cmds, data, open)
    ensures Inv(exec, Propagate(s.(data := data), db, cmds).(open := open))
  {
    assert db < |s.data| == |data|;
    hide Tracks, Dump, EncodeAll, FeedCommands, Moves;
    var b := EncodeAll(FeedCommands(s.selected, db, cmds));
    if s.mode.On? {
      FeedTracks(exec, s.file + s.buf, s.data, s.selected, s.open, db, cmds, data, open);
      ConcatAssoc(s.file, s.buf, b);
    }
    if !s.mode.Off? && s.child.Some? {
      FeedTracks(exec, Dump(s.child.value) + s.diff, s.data, s.selected, s.open, db, cmds, data, open);
      ConcatAssoc(Dump(s.child.value), s.diff, b);
    }
  }

  lemma RunKeepsSize(exec: Exec, data: Dataset, db: nat, argv: Argv)
    requires Sane(exec)
    ensures |Run(exec, data, db, argv)| == |data|
  {
  }

  /** Nothing is lost at the switch: the new file alone stands for the dataset, so the buffer that is
      thrown away there is not needed. */
  lemma SwitchKeepsInv(exec: Exec, s: State)
    requires Inv(exec, s) && s.child.Some?
    ensures Inv(exec, Switch(s))
  {
    if !s.mode.Off? {
      Forgets(exec, Dump(s.child.value) + s.diff, s.data, s.selected, s.open);
      assert Dump(s.child.value) + s.diff + [] == Dump(s.child.value) + s.diff;
    }
  }

  // ---- whole runs

  ghost predicate PossibleRun(exec: Exec, s: State, es: seq<Event>)
    decreases |es|
  {
    es == [] || (Possible(exec, s, es[0]) && PossibleRun(exec, Step(exec, s, es[0]), es[1..]))
  }

  ghost function After(exec: Exec, s: State, es: seq<Event>): State
    requires PossibleRun(exec, s, es)
    decreases |es|
  {
    if es == [] then s else After(exec, Step(exec, s, es[0]), es[1..])
  }

  lemma {:induction false} RunKeepsInv(exec: Exec, s: State, es: seq<Event>)
    requires Sane(exec) && Inv(exec, s) && PossibleRun(exec, s, es)
    ensures Inv(exec, After(exec, s, es))
    decreases |es|
  {
    if es != [] {
      StepKeepsInv(exec, s, es[0]);
      RunKeepsInv(exec, Step(exec, s, es[0]), es[1..]);
    }
  }

  /** A server that starts with the AOF off and any dataset. */
  ghost predicate StartsOff(s: State) {
    && s.mode.Off? && !s.fdOpen && s.selected == -1 && s.buf == [] && s.child.None? && s.diff == [] && !s.open
    && |s.data| <= LLONG_MAX
  }

  /** A server that starts by loading commands from its append-only file. */
  ghost predicate StartsOn(exec: Exec, s: State, cmds: seq<Argv>) {
    && s.mode.On? && s.fdOpen && s.selected == -1 && s.buf == [] && s.child.None? && s.diff == [] && !s.open
    && AllWellSized(cmds) && s.file == EncodeAll(cmds)
    && |s.data| <= LLONG_MAX && InStep(Replay(exec, Fresh(|s.data|), cmds), s.data, -1, false)
  }

  lemma StartKeepsInv(exec: Exec, s: State, cmds: seq<Argv>)
    requires StartsOff(s) || StartsOn(exec, s, cmds)
    ensures Inv(exec, s)
  {
    if s.mode.On? {
      var c := Replay(exec, Fresh(|s.data|), cmds);
      assert s.file + s.buf == s.file;
      forall rest ensures Load(exec, Fresh(|s.data|), s.file + rest) == Load(exec, c, rest) {
        LoadReplays(exec, Fresh(|s.data|), cmds, rest);
      }
      assert LeadsTo(exec, s.file + s.buf, |s.data|, c) && InStep(c, s.data, -1, false);
    }
  }

  /** Loading `b` gives the dataset; where a block is open it does so with the EXEC that is to follow. */
  ghost predicate Reloads(exec: Exec, b: bytes, data: Dataset, open: bool) {
    && LoadsAs(exec, b + EncodeCommand([EXEC]), data)
    && (!open ==> LoadsAs(exec, b, data))
  }

  ghost predicate LoadsAs(exec: Exec, b: bytes, data: Dataset) {
    var r := Load(exec, Fresh(|data|), b); r.Some? && r.value.data == data
  }

  /** In every reachable state: while the AOF is on, loading the file and what is still in the buffer
      gives exactly the dataset; while it is on or waiting for its first rewrite and a child is alive,
      so does loading what the child writes and the accumulated differences. While a block is open a MULTI
      may still lack its EXEC; with the EXEC that is to come they load all the same. */
  lemma AofSafety(exec: Exec, s0: State, cmds: seq<Argv>, es: seq<Event>)
    requires Sane(exec) && (StartsOff(s0) || StartsOn(exec, s0, cmds)) && PossibleRun(exec, s0, es)
    ensures var s := After(exec, s0, es);
            && (s.mode.On? ==> Reloads(exec, s.file + s.buf, s.data, s.open))
            && (!s.mode.Off? && s.child.Some? ==> Reloads(exec, Dump(s.child.value) + s.diff, s.data, s.open))
  {
    StartKeepsInv(exec, s0, cmds);
    RunKeepsInv(exec, s0, es);
    var s := After(exec, s0, es);
    if s.mode.On? { TracksReloads(exec, s.file + s.buf, s.data, s.selected, s.open); }
    if !s.mode.Off? && s.child.Some? {
      TracksReloads(exec, Dump(s.child.value) + s.diff, s.data, s.selected, s.open);
    }
    hide Reloads, Tracks, Dump, Sane, After, StartsOff, StartsOn;
  }

  /** Where a block has just been begun, the file with its buffer is refused. */
  lemma OpenBlockIsRefused(exec: Exec, s: State, db: nat)
    requires Inv(exec, s) && s.mode.On? && Possible(exec, s, BeginBlock(db))
    ensures var s' := Step(exec, s, BeginBlock(db)); Load(exec, Fresh(|s'.data|), s'.file + s'.buf) == None
  {
    var b, cmds := s.file + s.buf, FeedCommands(s.selected, db, [[MULTI]]);
    var c :| LeadsTo(exec, b, |s.data|, c) && InStep(c, s.data, s.selected, s.open);
    FeedReplays(exec, c, s.selected, db, [[MULTI]]);
    ReplayOne(exec, c.(db := db), [MULTI]);
    LeadsToExtends(exec, b, |s.data|, c, cmds);
    BlockRuns(exec, c.(db := db));
    var c' := RunOne(exec, c.(db := db), [MULTI]);
    hide Inv, RunOne, FeedCommands, EncodeAll;
    ConcatAssoc(s.file, s.buf, EncodeAll(cmds));
    var b' := b + EncodeAll(cmds);
    assert b' + [] == b';
    assert Load(exec, Fresh(|s.data|), b' + []) == Load(exec, c', []);
  }

  lemma TracksReloads(exec: Exec, b: bytes, data: Dataset, selected: int, open: bool)
    requires Tracks(exec, b, data, selected, open)
    ensures Reloads(exec, b, data, open)
  {
    var c :| LeadsTo(exec, b, |data|, c) && InStep(c, data, selected, open);
    var cmds: seq<Argv> := [[EXEC]];
    LeadsToExtends(exec, b, |data|, c, cmds);
    EncodeOne([EXEC]);
    BlockRuns(exec, c);
    ReplayOne(exec, c, [EXEC]);
    hide LeadsTo, RunOne, EncodeAll, EncodeCommand, Load;
    LeadsToLoads(exec, b + EncodeAll(cmds), |data|, c.(multi := false));
    if !open { LeadsToLoads(exec, b, |data|, c); }
  }
}
