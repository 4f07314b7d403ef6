/** Transactions over a dataset. With any command table that signals every key it changes, WATCH is a
    check-and-set, but for the changes that come from no command and are not signalled; and EXEC has the
    effect on the dataset, and the replies, of its commands sent one by one. */
module TransactionData {
  import opened Bytes
  import opened Transactions
  import opened TransactionRuns
  import opened TransactionIsolation

  type Data = map<WatchedKey, bytes>

  /** What a command comes to. */
  datatype Ran = Ran(data: Data, effects: seq<Effect>, reply: bytes)

  /** The command table: the dataset, the selected db and the command. */
  type Exec = (Data, nat, nat) -> Ran

  const OK: bytes := [79, 75]

  function Execute(exec: Exec, data: Data, db: nat, name: nat): Ran {
    exec(data, db, name)
  }

  function ValueAt(data: Data, k: WatchedKey): Option<bytes> {
    if k in data then Some(data[k]) else None
  }

  ghost predicate AnyHits(es: seq<Effect>, k: WatchedKey) {
    exists e :: e in es && Hits(e, k)
  }

  /** Every command signals the keys it changes (`signalModifiedKey` and the flushes). MOVE does not, nor do
      DEBUG RELOAD, LOADAOF and POPULATE; what a lookup expires is a call of its own, before the command. */
  ghost predicate Signalling(exec: Exec) {
    forall data, db, name, k ::
      var r := Execute(exec, data, db, name);
      ValueAt(r.data, k) != ValueAt(data, k) ==> AnyHits(r.effects, k)
  }

  datatype World = World(s: State, data: Data)

  /** What can happen to the server. `Expire` is a key deleted by `expireIfNeeded`, `activeExpireCycle` or
      an eviction, all of which signal nothing; `Resync` is a slave that takes over its master's dataset,
      which signals the keys there were. */
  datatype Call =
    | Arrive(c: Id)
    | Leave(c: Id)
    | Ask(c: Id, cmd: Cmd, verdict: Verdict)
    | Expire(k: WatchedKey)
    | Resync(data: Data)

  /** A step that marks nobody. */
  const UNNOTICED := Background(Flush(None, {}))

  /** A command that is run rather than queued. */
  function RunOn(exec: Exec, w: World, c: Id, cmd: Cmd): (r: (World, Ran))
    requires c in w.s.clients
    ensures c in r.0.s.clients && r.0.data == r.1.data && r.0.s == RunCmd(w.s, c, cmd, r.1.effects)
  {
    var ran := if cmd.Other? then Execute(exec, w.data, w.s.clients[c].db, cmd.name) else Ran(w.data, [], OK);
    (World(RunCmd(w.s, c, cmd, ran.effects), ran.data), ran)
  }

  datatype Played = Played(w: World, effects: seq<seq<Effect>>, replies: seq<bytes>)

  /** The first `n` commands of a queue. */
  function Play(exec: Exec, w: World, c: Id, queue: seq<Cmd>, n: nat): (r: Played)
    requires c in w.s.clients && n <= |queue|
    ensures c in r.w.s.clients && |r.effects| == n
  {
    if n == 0 then Played(w, [], [])
    else
      var before := Play(exec, w, c, queue, n - 1);
      var (w', ran) := RunOn(exec, before.w, c, queue[n - 1]);
      Played(w', before.effects + [ran.effects], before.replies + [ran.reply])
  }

  /** The world after a call, the step it is for the flags and lists, and the replies of what was run. */
  datatype Handled = Handled(w: World, op: Op, replies: seq<bytes>)

  predicate Executes(s: State, c: Id, cmd: Cmd, verdict: Verdict)
    requires c in s.clients
  {
    verdict.Accepted? && cmd.Exec? && s.clients[c].multi && !s.clients[c].dirtyCas && !s.clients[c].dirtyExec
  }

  predicate RunsNow(s: State, c: Id, cmd: Cmd, verdict: Verdict)
    requires c in s.clients
  {
    verdict.Accepted? && !s.clients[c].multi && !NeverQueued(cmd)
  }

  function Handle(exec: Exec, w: World, call: Call): Handled {
    match call
    case Arrive(c) => Handled(World(Step(w.s, Connect(c)).0, w.data), Connect(c), [])
    case Leave(c) => Handled(World(Step(w.s, Free(c)).0, w.data), Free(c), [])
    case Expire(k) => Handled(World(Step(w.s, UNNOTICED).0, w.data - {k}), UNNOTICED, [])
    case Resync(data) =>
      var op := Background(Flush(None, w.data.Keys));
      Handled(World(Step(w.s, op).0, data), op, [])
    case Ask(c, cmd, verdict) =>
      if c in w.s.clients && Executes(w.s, c, cmd, verdict) then
        var queue := w.s.clients[c].queue;
        var p := Play(exec, World(UnwatchAll(w.s, c), w.data), c, queue, |queue|);
        var op := Request(c, cmd, verdict, p.effects);
        Handled(World(Step(w.s, op).0, p.w.data), op, p.replies)
      else if c in w.s.clients && RunsNow(w.s, c, cmd, verdict) then
        var (w', ran) := RunOn(exec, w, c, cmd);
        var op := Request(c, cmd, verdict, [ran.effects]);
        Handled(World(Step(w.s, op).0, ran.data), op, [ran.reply])
      else
        var op := Request(c, cmd, verdict, []);
        Handled(World(Step(w.s, op).0, w.data), op, [])
  }

  /** The world after a run that began with the dataset `data`. */
  function After(exec: Exec, data: Data, calls: seq<Call>): World {
    if calls == [] then World(Run([]), data)
    else Handle(exec, After(exec, data, calls[..|calls| - 1]), calls[|calls| - 1]).w
  }

  function Ops(exec: Exec, data: Data, calls: seq<Call>): (ops: seq<Op>)
    ensures |ops| == |calls|
  {
    if calls == [] then []
    else
      var front := calls[..|calls| - 1];
      Ops(exec, data, front) + [Handle(exec, After(exec, data, front), calls[|calls| - 1]).op]
  }

  lemma HandleSteps(exec: Exec, w: World, call: Call)
    ensures var h := Handle(exec, w, call); h.w.s == Step(w.s, h.op).0
  {
    hide Step;
  }

  /** A call is the step it is called after. */
  lemma HandleIs(exec: Exec, w: World, call: Call)
    ensures var op := Handle(exec, w, call).op;
      match call
      case Arrive(c) => op == Connect(c)
      case Leave(c) => op == Free(c)
      case Ask(c, cmd, verdict) => op.Request? && op.c == c && op.cmd == cmd && op.verdict == verdict
      case _ => op.Background?
  {
    hide Step, Play, RunOn, UnwatchAll;
  }

  /** The run is one of those `TransactionRuns` is about. */
  lemma {:induction false} OpsRun(exec: Exec, data: Data, calls: seq<Call>)
    ensures Run(Ops(exec, data, calls)) == After(exec, data, calls).s
  {
    hide Handle, Step;
    if calls != [] {
      var front := calls[..|calls| - 1];
      OpsRun(exec, data, front);
      HandleSteps(exec, After(exec, data, front), calls[|calls| - 1]);
      var ops := Ops(exec, data, calls);
      assert ops[..|ops| - 1] == Ops(exec, data, front);
    }
  }

  lemma {:induction false} OpsPrefix(exec: Exec, data: Data, calls: seq<Call>, i: nat)
    requires i <= |calls|
    ensures Ops(exec, data, calls)[..i] == Ops(exec, data, calls[..i])
  {
    if i == |calls| {
      assert calls[..i] == calls;
    } else {
      var front := calls[..|calls| - 1];
      OpsPrefix(exec, data, front, i);
      assert front[..i] == calls[..i];
    }
  }

  // ---- what changes is signalled

  lemma HitsConcat(a: seq<Effect>, b: seq<Effect>, k: WatchedKey)
    ensures AnyHits(a + b, k) <==> AnyHits(a, k) || AnyHits(b, k)
  {
    if AnyHits(a, k) || AnyHits(b, k) {
      var e :| (e in a || e in b) && Hits(e, k);
      assert e in a + b;
    }
  }

  lemma {:induction false} QueueEffectsLocal(queue: seq<Cmd>, x: seq<seq<Effect>>, y: seq<seq<Effect>>, n: nat)
    requires n <= |queue| && n <= |x| && n <= |y| && x[..n] == y[..n]
    ensures QueueEffects(queue, x, n) == QueueEffects(queue, y, n)
  {
    if n > 0 {
      assert x[..n - 1] == x[..n][..n - 1] && y[..n - 1] == y[..n][..n - 1];
      assert x[n - 1] == x[..n][n - 1] && y[n - 1] == y[..n][n - 1];
      QueueEffectsLocal(queue, x, y, n - 1);
    }
  }

  lemma {:induction false} PlaySignals(exec: Exec, w: World, c: Id, queue: seq<Cmd>, n: nat, k: WatchedKey)
    requires Signalling(exec) && c in w.s.clients && n <= |queue|
    ensures var p := Play(exec, w, c, queue, n);
      ValueAt(p.w.data, k) != ValueAt(w.data, k) ==> AnyHits(QueueEffects(queue, p.effects, n), k)
  {
    if n > 0 {
      PlaySignals(exec, w, c, queue, n - 1, k);
      var before, p := Play(exec, w, c, queue, n - 1), Play(exec, w, c, queue, n);
      assert p.effects[..n - 1] == before.effects[..n - 1];
      QueueEffectsLocal(queue, before.effects, p.effects, n - 1);
      var last := if queue[n - 1].Other? then EffectsAt(p.effects, n - 1) else [];
      HitsConcat(QueueEffects(queue, p.effects, n - 1), last, k);
    }
  }

  /** The call changes the key and tells nobody: the key is there and expires, or it is not there and comes
      from the master. */
  predicate Silent(data: Data, call: Call, k: WatchedKey) {
    match call
    case Expire(k') => k' == k && k in data
    case Resync(data') => k !in data && k in data'
    case _ => false
  }

  /** A call that changes a key signals it, unless it is silent. */
  lemma HandleSignals(exec: Exec, w: World, call: Call, k: WatchedKey)
    requires Signalling(exec)
    ensures var h := Handle(exec, w, call);
      ValueAt(h.w.data, k) != ValueAt(w.data, k) && !Signals(w.s, h.op, k) <==> Silent(w.data, call, k)
  {
    match call
    case Arrive(_) =>
    case Leave(_) =>
    case Expire(_) =>
    case Resync(_) => ResyncSignals(exec, w, call, k);
    case Ask(c, cmd, verdict) =>
      if c in w.s.clients && Executes(w.s, c, cmd, verdict) {
        PlaySignals(exec, World(UnwatchAll(w.s, c), w.data), c, w.s.clients[c].queue, |w.s.clients[c].queue|, k);
      }
  }

  lemma ResyncSignals(exec: Exec, w: World, call: Call, k: WatchedKey)
    requires call.Resync?
    ensures Signals(w.s, Handle(exec, w, call).op, k) <==> k in w.data
  {
    var e := Flush(None, w.data.Keys);
    var op := Background(e);
    assert Handle(exec, w, call).op == op;
    assert Signalled(w.s, op) == [e] && (Hits(e, k) <==> k in w.data.Keys);
    if k in w.data { assert e in Signalled(w.s, op) && Hits(e, k); }
    hide Step, Handle;
  }

  /** The dataset after FLUSHDB of a db, or after FLUSHALL. */
  function Flushed(data: Data, db: Option<nat>): Data {
    map k | k in data && db.Some? && k.db != db.value :: data[k]
  }

  /** A flush signals exactly the keys it deletes, and a modified key is signalled alone. */
  lemma FlushSignals(s: State, data: Data, db: Option<nat>, k: WatchedKey, touched: WatchedKey)
    ensures Signals(s, Background(Flush(db, data.Keys)), k) <==> ValueAt(Flushed(data, db), k) != ValueAt(data, k)
    ensures Signals(s, Background(Touch(touched)), k) <==> k == touched
  {
    var flush, touch := Flush(db, data.Keys), Touch(touched);
    assert Signalled(s, Background(flush)) == [flush] && Signalled(s, Background(touch)) == [touch];
    assert flush in [flush] && touch in [touch];
  }

  // ---- check and set

  /** The step that call `j` is in the whole run. */
  lemma CallAt(exec: Exec, data: Data, calls: seq<Call>, j: nat)
    requires j < |calls|
    ensures var before, h := calls[..j], Handle(exec, After(exec, data, calls[..j]), calls[j]);
      && After(exec, data, calls[..j + 1]) == h.w && Ops(exec, data, calls)[j] == h.op
      && Run(Ops(exec, data, calls)[..j]) == After(exec, data, before).s
  {
    hide Handle, Run;
    var upto := calls[..j + 1];
    assert upto[..j] == calls[..j] && upto[j] == calls[j];
    OpsPrefix(exec, data, calls, j);
    OpsPrefix(exec, data, calls, j + 1);
    OpsRun(exec, data, calls[..j]);
    assert Ops(exec, data, calls)[j] == Ops(exec, data, calls)[..j + 1][j];
  }

  /** The next command of `c` could be an EXEC that runs its queue. */
  ghost predicate Ready(exec: Exec, data: Data, calls: seq<Call>, c: Id) {
    c in After(exec, data, calls).s.clients && Executes(After(exec, data, calls).s, c, Exec, Accepted)
  }

  /** The client has watched no key that was signalled since. */
  lemma NothingSignalled(exec: Exec, data: Data, calls: seq<Call>, c: Id, k: WatchedKey, i: nat, j: nat)
    requires Ready(exec, data, calls, c)
    ensures !SignalledSince(Ops(exec, data, calls), c, k, i, j)
  {
    OpsRun(exec, data, calls);
    DirtyIff(Ops(exec, data, calls), c);
    hide Run, Ops, After, SignalledSince;
  }

  /** WATCH, MULTI, EXEC as check-and-set: when EXEC would run its queue, the calls that have changed a key
      since its client watched it are exactly the silent ones. */
  lemma CheckAndSet(exec: Exec, data: Data, calls: seq<Call>, c: Id, k: WatchedKey, i: nat, j: nat)
    requires Signalling(exec) && Ready(exec, data, calls, c)
    requires WatchingSince(Ops(exec, data, calls), c, k, i) && i < j < |calls|
    ensures ValueAt(After(exec, data, calls[..j + 1]).data, k) != ValueAt(After(exec, data, calls[..j]).data, k)
       <==> Silent(After(exec, data, calls[..j]).data, calls[j], k)
  {
    NothingSignalled(exec, data, calls, c, k, i, j);
    CallAt(exec, data, calls, j);
    HandleSignals(exec, After(exec, data, calls[..j]), calls[j], k);
    hide Signalling, Ready, WatchingSince, After, Handle, Run, Ops, Signals, ValueAt, Silent;
  }

  /** Call `n` changes the key silently. */
  ghost predicate SilentAt(exec: Exec, data: Data, calls: seq<Call>, k: WatchedKey, n: nat) {
    n < |calls| && Silent(After(exec, data, calls[..n]).data, calls[n], k)
  }

  /** Where nothing silent has happened, the key has had its present value ever since it was watched. */
  lemma {:induction false} WatchedKeeps(exec: Exec, data: Data, calls: seq<Call>, c: Id, k: WatchedKey,
                                        i: nat, j: nat)
    requires Signalling(exec) && Ready(exec, data, calls, c)
    requires WatchingSince(Ops(exec, data, calls), c, k, i) && i < j <= |calls|
    requires forall n :: j <= n < |calls| ==> !SilentAt(exec, data, calls, k, n)
    ensures ValueAt(After(exec, data, calls[..j]).data, k) == ValueAt(After(exec, data, calls).data, k)
    decreases |calls| - j
  {
    hide Signalling, Ready, WatchingSince, After, Ops, ValueAt, Silent;
    if j == |calls| {
      assert calls[..j] == calls;
    } else {
      assert !SilentAt(exec, data, calls, k, j);
      CheckAndSet(exec, data, calls, c, k, i, j);
      WatchedKeeps(exec, data, calls, c, k, i, j + 1);
    }
  }

  // ---- changes that EXEC does not see

  const KEY := WatchedKey(0, [107])

  /** A client connects and watches a key, something happens, the client begins a transaction. */
  function Story(between: Call): seq<Call> {
    [Arrive(0), Ask(0, Watch([[107]]), Accepted), between, Ask(0, Multi, Accepted)]
  }

  const CONNECTED := State(map[0 := NEW_CLIENT], map[])
  const WATCHING := State(map[0 := NEW_CLIENT.(watched := [KEY])], map[KEY := [0]])

  lemma StoryBegins(exec: Exec, data: Data)
    ensures Handle(exec, World(Run([]), data), Arrive(0)).w == World(CONNECTED, data)
    ensures var h := Handle(exec, World(CONNECTED, data), Ask(0, Watch([[107]]), Accepted));
      h.w == World(WATCHING, data) && StartsWatch(CONNECTED, h.op, 0, 0, KEY)
  {
    var keys: seq<bytes> := [[107]];
    assert keys[0] == [107] && WatchedKey(0, keys[0]) == KEY;
    assert WatchFirst(CONNECTED, 0, keys, 0) == CONNECTED;
    assert WatchFirst(CONNECTED, 0, keys, 1) == WatchOne(CONNECTED, 0, KEY);
    assert [] + [KEY] == [KEY] && [] + [0] == [0];
    assert WatchOne(CONNECTED, 0, KEY) == WATCHING;
  }

  lemma StoryEnds(exec: Exec, w: World)
    requires w.s == WATCHING
    ensures var h := Handle(exec, w, Ask(0, Multi, Accepted));
      && h.w.data == w.data && 0 in h.w.s.clients && Executes(h.w.s, 0, Exec, Accepted)
      && !EndsWatch(WATCHING, h.op, 0)
  {
  }

  lemma StoryWorlds(exec: Exec, data: Data, between: Call)
    requires Handle(exec, World(WATCHING, data), between).w.s == WATCHING
    ensures var calls := Story(between);
      && After(exec, data, calls[..1]) == World(CONNECTED, data)
      && After(exec, data, calls[..2]) == World(WATCHING, data)
      && After(exec, data, calls[..3]) == Handle(exec, World(WATCHING, data), between).w
      && After(exec, data, calls) == Handle(exec, After(exec, data, calls[..3]), Ask(0, Multi, Accepted)).w
  {
    var calls := Story(between);
    StoryBegins(exec, data);
    hide Handle;
    assert calls[..4] == calls && calls[..0] == [];
    CallAt(exec, data, calls, 0);
    CallAt(exec, data, calls, 1);
    CallAt(exec, data, calls, 2);
    CallAt(exec, data, calls, 3);
    hide Run;
  }

  /** If the flags and lists take no notice of what happens, EXEC would run, although the key is watched. */
  lemma StoryTold(exec: Exec, data: Data, between: Call)
    requires var h := Handle(exec, World(WATCHING, data), between); h.w.s == WATCHING && !EndsWatch(WATCHING, h.op, 0)
    ensures var calls := Story(between);
      && Ready(exec, data, calls, 0) && WatchingSince(Ops(exec, data, calls), 0, KEY, 1)
      && After(exec, data, calls).data == Handle(exec, World(WATCHING, data), between).w.data
      && After(exec, data, calls[..2]).data == data
  {
    var calls := Story(between);
    StoryBegins(exec, data);
    StoryWorlds(exec, data, between);
    StoryEnds(exec, After(exec, data, calls[..3]));
    CallAt(exec, data, calls, 1);
    CallAt(exec, data, calls, 2);
    CallAt(exec, data, calls, 3);
    hide Handle, StartsWatch, EndsWatch, Run, After, Executes;
  }

  /** A watched key expires, and EXEC runs its queue all the same. */
  lemma ExpiryGoesUnnoticed(exec: Exec, value: bytes)
    ensures var data, calls := map[KEY := value], Story(Expire(KEY));
      && Ready(exec, data, calls, 0) && WatchingSince(Ops(exec, data, calls), 0, KEY, 1)
      && ValueAt(After(exec, data, calls[..2]).data, KEY) == Some(value)
      && ValueAt(After(exec, data, calls).data, KEY) == None
  {
    UnnoticedStep();
    StoryTold(exec, map[KEY := value], Expire(KEY));
    hide After, Ready, WatchingSince, Ops;
  }

  lemma UnnoticedStep()
    ensures Step(WATCHING, UNNOTICED).0 == WATCHING
  {
    var e := Flush(None, {});
    assert Mark(WATCHING.clients[0], e) == WATCHING.clients[0];
    assert Signal(WATCHING, e).clients == WATCHING.clients;
  }

  /** A watched key that was absent comes from the master, and EXEC runs its queue all the same. */
  lemma ResyncGoesUnnoticed(exec: Exec, value: bytes)
    ensures var data, calls := map[], Story(Resync(map[KEY := value]));
      && Ready(exec, data, calls, 0) && WatchingSince(Ops(exec, data, calls), 0, KEY, 1)
      && ValueAt(After(exec, data, calls[..2]).data, KEY) == None
      && ValueAt(After(exec, data, calls).data, KEY) == Some(value)
  {
    UnnoticedStep();
    var none: Data := map[];
    assert none.Keys == {};
    StoryTold(exec, none, Resync(map[KEY := value]));
    hide After, Ready, WatchingSince, Ops;
  }

  /** A table of one command, MOVE of the key to db 1 (`moveCommand`), which signals nothing. */
  function MoveKey(data: Data, db: nat, name: nat): Ran {
    var target := WatchedKey(1, KEY.key);
    if db != 0 || KEY !in data || target in data then Ran(data, [], [48])
    else Ran((data - {KEY})[target := data[KEY]], [], [49])
  }

  /** A watched key is moved away, and EXEC runs its queue all the same: the table is not `Signalling`. */
  lemma MoveGoesUnnoticed(value: bytes)
    ensures !Signalling(MoveKey)
    ensures var data, calls := map[KEY := value], Story(Ask(0, Other(0), Accepted));
      && Ready(MoveKey, data, calls, 0) && WatchingSince(Ops(MoveKey, data, calls), 0, KEY, 1)
      && ValueAt(After(MoveKey, data, calls[..2]).data, KEY) == Some(value)
      && ValueAt(After(MoveKey, data, calls).data, KEY) == None
  {
    var data: Data := map[KEY := value];
    var r := Execute(MoveKey, data, 0, 0);
    assert ValueAt(r.data, KEY) != ValueAt(data, KEY) && !AnyHits(r.effects, KEY);
    assert SignalAll(WATCHING, []) == WATCHING;
    StoryTold(MoveKey, data, Ask(0, Other(0), Accepted));
    hide After, Ready, WatchingSince, Ops;
  }

  // ---- EXEC as a sequence of commands

  /** The first `n` commands sent as requests, one after the other, and their replies. */
  function SendEach(exec: Exec, w: World, c: Id, cmds: seq<Cmd>, n: nat): (World, seq<bytes>)
    requires n <= |cmds|
  {
    if n == 0 then (w, [])
    else
      var (w1, replies) := SendEach(exec, w, c, cmds, n - 1);
      var h := Handle(exec, w1, Ask(c, cmds[n - 1], Accepted));
      (h.w, replies + h.replies)
  }

  ghost function Cleared(w: World, c: Id): World
    requires c in w.s.clients
  {
    World(Clear(w.s, c), w.data)
  }

  /** One command of the queue, run for a client that watches nothing, and sent by the client once it is
      out of the transaction. */
  lemma OneIsHandled(exec: Exec, w: World, c: Id, cmd: Cmd)
    requires WatchesNothing(w.s, c) && !NeverQueued(cmd)
    ensures var (w', ran) := RunOn(exec, w, c, cmd);
      var h := Handle(exec, Cleared(w, c), Ask(c, cmd, Accepted));
      WatchesNothing(w'.s, c) && h.w == Cleared(w', c) && h.replies == [ran.reply]
  {
    var (w', ran) := RunOn(exec, w, c, cmd);
    var cl := Cleared(w, c);
    assert cl.s.clients[c].db == w.s.clients[c].db && !cl.s.clients[c].multi;
    assert RunOn(exec, cl, c, cmd).1 == ran;
    hide WatchesNothing, Clear, RunCmd, Step;
    OneIsSent(w.s, c, cmd, ran.effects);
  }

  lemma {:induction false} PlayIsSent(exec: Exec, w: World, c: Id, cmds: seq<Cmd>, n: nat)
    requires WatchesNothing(w.s, c) && n <= |cmds|
    requires forall i :: 0 <= i < |cmds| ==> !NeverQueued(cmds[i])
    ensures var p := Play(exec, w, c, cmds, n);
      WatchesNothing(p.w.s, c) && SendEach(exec, Cleared(w, c), c, cmds, n) == (Cleared(p.w, c), p.replies)
  {
    if n > 0 {
      PlayIsSent(exec, w, c, cmds, n - 1);
      OneIsHandled(exec, Play(exec, w, c, cmds, n - 1).w, c, cmds[n - 1]);
    }
    hide WatchesNothing, Cleared, RunOn, Handle;
  }

  lemma {:induction false} PlayRunsQueue(exec: Exec, w: World, c: Id, queue: seq<Cmd>,
                                         effects: seq<seq<Effect>>, n: nat)
    requires c in w.s.clients && n <= |queue| && n <= |effects|
    requires effects[..n] == Play(exec, w, c, queue, n).effects
    ensures RunQueue(w.s, c, queue, effects, n) == Play(exec, w, c, queue, n).w.s
  {
    if n > 0 {
      assert effects[..n - 1] == effects[..n][..n - 1] == Play(exec, w, c, queue, n - 1).effects;
      assert effects[n - 1] == effects[..n][n - 1];
      PlayRunsQueue(exec, w, c, queue, effects, n - 1);
    }
    hide RunCmd;
  }

  lemma ExecSteps(s: State, c: Id, effects: seq<seq<Effect>>)
    requires c in s.clients && Executes(s, c, Exec, Accepted)
    ensures var queue := s.clients[c].queue;
      Step(s, Request(c, Exec, Accepted, effects)).0
      == DiscardTransaction(RunQueue(UnwatchAll(s, c), c, queue, effects, |queue|), c)
  {
    hide RunQueue, UnwatchAll, DiscardTransaction;
  }

  /** EXEC runs its queue for a client that watches nothing any more, and ends the transaction. */
  lemma ExecPlays(exec: Exec, w: World, c: Id)
    requires c in w.s.clients && Executes(w.s, c, Exec, Accepted)
    ensures var queue := w.s.clients[c].queue;
      var p := Play(exec, World(UnwatchAll(w.s, c), w.data), c, queue, |queue|);
      var h := Handle(exec, w, Ask(c, Exec, Accepted));
      h.w == World(DiscardTransaction(p.w.s, c), p.w.data) && h.replies == p.replies
  {
    var queue, start := w.s.clients[c].queue, World(UnwatchAll(w.s, c), w.data);
    var p := Play(exec, start, c, queue, |queue|);
    assert p.effects[..|queue|] == p.effects;
    PlayRunsQueue(exec, start, c, queue, p.effects, |queue|);
    ExecSteps(w.s, c, p.effects);
    hide RunQueue, Play, UnwatchAll, DiscardTransaction, Step;
  }

  lemma QueueNormal(exec: Exec, data: Data, calls: seq<Call>, c: Id)
    requires c in After(exec, data, calls).s.clients
    ensures var queue := After(exec, data, calls).s.clients[c].queue;
      queue == QueuedSince(Ops(exec, data, calls), c) && forall i :: 0 <= i < |queue| ==> !NeverQueued(queue[i])
  {
    OpsRun(exec, data, calls);
    QueueIs(Ops(exec, data, calls), c);
    QueuedOnly(Ops(exec, data, calls), c);
    hide After, Run, Ops, QueuedSince, NeverQueued;
  }

  /** When EXEC runs, flags, lists and dataset end up as if its client had ended the transaction and then
      sent the queued commands one after the other, with nothing in between; and the replies are theirs. */
  lemma ExecIsSequenceOnData(exec: Exec, data: Data, calls: seq<Call>, c: Id)
    requires Ready(exec, data, calls, c)
    ensures var w := After(exec, data, calls);
      var h := Handle(exec, w, Ask(c, Exec, Accepted));
      var queue := w.s.clients[c].queue;
      && queue == QueuedSince(Ops(exec, data, calls), c)
      && (h.w, h.replies) == SendEach(exec, World(DiscardTransaction(w.s, c), w.data), c, queue, |queue|)
  {
    var w := After(exec, data, calls);
    QueueNormal(exec, data, calls, c);
    ExecPlays(exec, w, c);
    var queue, start := w.s.clients[c].queue, World(UnwatchAll(w.s, c), w.data);
    UnwatchAllWatchesNothing(w.s, c);
    hide After, Ops, Executes, SendEach, Play, UnwatchAll, DiscardTransaction, Handle, QueuedSince, NeverQueued;
    PlayIsSent(exec, start, c, queue, |queue|);
    DiscardIsClear(Play(exec, start, c, queue, |queue|).w.s, c);
    hide WatchesNothing, Clear;
  }
}
