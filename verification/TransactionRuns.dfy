/** WATCH, MULTI and EXEC over whole runs: the flags and lists of the state say what happened before. */
module TransactionRuns {
  import opened Bytes
  import opened Transactions

  // ---- what single steps mean, without the flags and the index

  /** The step makes `c`, which has selected `db`, watch `k`. */
  ghost predicate StartsWatch(s: State, op: Op, db: nat, c: Id, k: WatchedKey) {
    && op.Request? && op.c == c && op.verdict.Accepted? && op.cmd.Watch? && c in s.clients
    && !s.clients[c].multi && k.db == db && k.key in op.cmd.keys
  }

  /** The step runs the queue of `c`. */
  ghost predicate RunsQueue(s: State, op: Op, c: Id) {
    && op.Request? && op.c == c && op.verdict.Accepted? && op.cmd.Exec?
    && InMulti(s, c) && !Dirty(s, c) && !Flagged(s, c)
  }

  /** The db of the last SELECT among the commands, or `db`. */
  function LastSelect(cmds: seq<Cmd>, db: nat): nat {
    if cmds == [] then db
    else
      var last := cmds[|cmds| - 1];
      if last.Select? then last.db else LastSelect(cmds[..|cmds| - 1], db)
  }

  /** The db `c` has selected after the step, when it had `db` selected before it. */
  ghost function DbAfter(s: State, op: Op, c: Id, db: nat, queue: seq<Cmd>): nat {
    if c !in s.clients then 0
    else if op.Request? && op.c == c && op.verdict.Accepted? && op.cmd.Select? && !InMulti(s, c) then op.cmd.db
    else if RunsQueue(s, op, c) then LastSelect(queue, db)
    else db
  }

  ghost function DbOf(s: State, c: Id): nat {
    if c in s.clients then s.clients[c].db else 0
  }

  /** The step ends all watching of `c`: EXEC and DISCARD of a transaction, UNWATCH, the end of the client. */
  ghost predicate EndsWatch(s: State, op: Op, c: Id) {
    && c in s.clients
    && match op
       case Free(d) => d == c
       case Request(d, cmd, verdict, _) =>
         d == c && verdict.Accepted? && if s.clients[c].multi then cmd.Exec? || cmd.Discard? else cmd.Unwatch?
       case _ => false
  }

  /** What the commands signal that the step runs. */
  ghost function Signalled(s: State, op: Op): seq<Effect> {
    match op
    case Background(e) => [e]
    case Request(c, cmd, verdict, effects) =>
      if c !in s.clients || verdict.Refused? then []
      else if cmd.Exec? then
        var cl := s.clients[c];
        if cl.multi && !cl.dirtyCas && !cl.dirtyExec then QueueEffects(cl.queue, effects, |cl.queue|) else []
      else if cmd.Other? && !s.clients[c].multi && |effects| > 0 then effects[0]
      else []
    case _ => []
  }

  ghost function QueueEffects(queue: seq<Cmd>, effects: seq<seq<Effect>>, n: nat): seq<Effect>
    requires n <= |queue|
  {
    if n == 0 then []
    else
      QueueEffects(queue, effects, n - 1)
      + if queue[n - 1].Other? && n - 1 < |effects| then effects[n - 1] else []
  }

  ghost predicate Signals(s: State, op: Op, k: WatchedKey) {
    exists e :: e in Signalled(s, op) && Hits(e, k)
  }

  ghost predicate StartsMulti(s: State, op: Op, c: Id) {
    && op.Request? && op.c == c && op.verdict.Accepted? && op.cmd.Multi? && c in s.clients && !s.clients[c].multi
  }

  /** The step ends the transaction of `c`. */
  ghost predicate EndsMulti(s: State, op: Op, c: Id) {
    && c in s.clients
    && match op
       case Free(d) => d == c
       case Request(d, cmd, verdict, _) =>
         d == c && verdict.Accepted? && s.clients[c].multi && (cmd.Exec? || cmd.Discard?)
       case _ => false
  }

  /** The step queues a command of `c`. */
  ghost predicate Queues(s: State, op: Op, c: Id) {
    && op.Request? && op.c == c && op.verdict.Accepted? && c in s.clients && s.clients[c].multi
    && !op.cmd.Exec? && !op.cmd.Discard? && !op.cmd.Multi? && !op.cmd.Watch?
  }

  /** The step refuses to queue a command of `c`, and flags it. */
  ghost predicate RefusesToQueue(s: State, op: Op, c: Id) {
    op.Request? && op.c == c && op.verdict == Refused(true) && c in s.clients && s.clients[c].multi
  }

  // ---- what one step does to the flags and lists

  ghost predicate Dirty(s: State, c: Id) {
    c in s.clients && s.clients[c].dirtyCas
  }

  ghost predicate MarksAny(es: seq<Effect>, cl: Client) {
    exists e :: e in es && Marks(e, cl)
  }

  lemma MarksConcat(a: seq<Effect>, b: seq<Effect>, cl: Client)
    ensures MarksAny(a + b, cl) <==> MarksAny(a, cl) || MarksAny(b, cl)
  {
    if e :| e in a && Marks(e, cl) { assert e in a + b; }
    if e :| e in b && Marks(e, cl) { assert e in a + b; }
  }

  /** Signals change the flag of a client that watches a key that is hit, and nothing else. */
  lemma {:induction false} SignalAllMarks(s: State, es: seq<Effect>, d: Id)
    requires d in s.clients
    ensures SignalAll(s, es).clients[d]
         == s.clients[d].(dirtyCas := s.clients[d].dirtyCas || MarksAny(es, s.clients[d]))
  {
    if es != [] {
      var front, last := es[..|es| - 1], es[|es| - 1];
      SignalAllMarks(s, front, d);
      assert es == front + [last];
      MarksConcat(front, [last], s.clients[d]);
      assert last in [last];
    }
  }

  /** A command run by `c` does to another client what its signals do. */
  lemma RunCmdMarks(s: State, c: Id, cmd: Cmd, es: seq<Effect>, d: Id)
    requires c in s.clients && d in s.clients && d != c
    ensures RunCmd(s, c, cmd, es).clients[d]
         == s.clients[d].(dirtyCas := s.clients[d].dirtyCas || (cmd.Other? && MarksAny(es, s.clients[d])))
  {
    if cmd.Other? { SignalAllMarks(s, es, d); }
    hide SignalAll, MarksAny;
  }

  lemma {:induction false} RunQueueMarks(s: State, c: Id, queue: seq<Cmd>, effects: seq<seq<Effect>>, n: nat, d: Id)
    requires c in s.clients && d in s.clients && d != c && n <= |queue|
    ensures RunQueue(s, c, queue, effects, n).clients[d]
         == s.clients[d].(dirtyCas := s.clients[d].dirtyCas || MarksAny(QueueEffects(queue, effects, n), s.clients[d]))
  {
    if n > 0 {
      var t, cmd, es := RunQueue(s, c, queue, effects, n - 1), queue[n - 1], EffectsAt(effects, n - 1);
      var before := QueueEffects(queue, effects, n - 1);
      RunQueueMarks(s, c, queue, effects, n - 1, d);
      RunCmdMarks(t, c, cmd, es, d);
      MarksConcat(before, if cmd.Other? then es else [], s.clients[d]);
      SameMarks(es, t.clients[d], s.clients[d]);
      NoneMark(s.clients[d]);
      hide MarksAny, RunCmd;
    } else {
      NoneMark(s.clients[d]);
    }
  }

  lemma NoneMark(cl: Client)
    ensures !MarksAny([], cl)
  {
  }

  lemma SameMarks(es: seq<Effect>, a: Client, b: Client)
    requires a.watched == b.watched
    ensures MarksAny(es, a) <==> MarksAny(es, b)
  {
    assert forall e :: Marks(e, a) <==> Marks(e, b);
  }

  lemma {:induction false} WatchFirstWatches(s: State, c: Id, keys: seq<bytes>, n: nat, k: WatchedKey)
    requires c in s.clients && n <= |keys|
    ensures k in WatchFirst(s, c, keys, n).clients[c].watched
       <==> k in s.clients[c].watched || (k.db == s.clients[c].db && k.key in keys[..n])
  {
    if n > 0 {
      var t, last := WatchFirst(s, c, keys, n - 1), WatchedKey(s.clients[c].db, keys[n - 1]);
      WatchFirstWatches(s, c, keys, n - 1, k);
      assert WatchFirst(s, c, keys, n) == WatchOne(t, c, last);
      hide WatchFirst;
      assert keys[..n] == keys[..n - 1] + [keys[n - 1]];
    }
  }

  /** EXEC of another client. */
  lemma OthersExec(s: State, d: Id, effects: seq<seq<Effect>>, c: Id)
    requires c in s.clients && d in s.clients && c != d
    ensures var op := Request(d, Exec, Accepted, effects);
      && c in ExecCommand(s, d, effects).0.clients
      && ExecCommand(s, d, effects).0.clients[c]
         == s.clients[c].(dirtyCas := s.clients[c].dirtyCas || MarksAny(Signalled(s, op), s.clients[c]))
  {
    NoneMark(s.clients[c]);
    var cl := s.clients[d];
    if cl.multi && !cl.dirtyCas && !cl.dirtyExec {
      UnwatchKeepsClients(s, d);
      RunQueueMarks(UnwatchAll(s, d), d, cl.queue, effects, |cl.queue|, c);
    }
    hide RunQueue, MarksAny, QueueEffects;
  }

  lemma OthersRequest(s: State, op: Op, c: Id)
    requires c in s.clients && op.Request? && op.c != c && op.c in s.clients
    ensures c in Step(s, op).0.clients
    ensures Step(s, op).0.clients[c]
         == s.clients[c].(dirtyCas := s.clients[c].dirtyCas || MarksAny(Signalled(s, op), s.clients[c]))
  {
    NoneMark(s.clients[c]);
    if op.verdict.Accepted? && (NeverQueued(op.cmd) || !s.clients[op.c].multi) {
      OthersRun(s, op, c);
    }
    hide WatchFirst, ExecCommand, SignalAll, MarksAny, RunCmd, DiscardTransaction;
  }

  lemma OthersRun(s: State, op: Op, c: Id)
    requires c in s.clients && op.Request? && op.c != c && op.c in s.clients
    requires op.verdict.Accepted? && (NeverQueued(op.cmd) || !s.clients[op.c].multi)
    ensures c in Step(s, op).0.clients
    ensures Step(s, op).0.clients[c]
         == s.clients[c].(dirtyCas := s.clients[c].dirtyCas || MarksAny(Signalled(s, op), s.clients[c]))
  {
    NoneMark(s.clients[c]);
    match op.cmd
    case Exec =>
      OthersExec(s, op.c, op.effects, c);
      hide ExecCommand, MarksAny, QueueEffects;
    case Other(_) =>
      SignalAllMarks(s, EffectsAt(op.effects, 0), c);
      hide SignalAll, MarksAny;
    case Watch(keys) =>
      WatchFirstKeeps(s, op.c, keys, |keys|, c);
      hide WatchFirst, MarksAny;
    case _ =>
      hide MarksAny;
  }

  lemma OthersStep(s: State, op: Op, c: Id)
    requires c in s.clients && (op.Background? || op.c != c)
    ensures c in Step(s, op).0.clients
    ensures Step(s, op).0.clients[c]
         == s.clients[c].(dirtyCas := s.clients[c].dirtyCas || MarksAny(Signalled(s, op), s.clients[c]))
  {
    NoneMark(s.clients[c]);
    match op
    case Background(e) => OneMarks(e, s.clients[c]);
    case Request(d, cmd, verdict, effects) =>
      if d in s.clients { OthersRequest(s, op, c); }
    case _ =>
  }

  lemma OneMarks(e: Effect, cl: Client)
    ensures MarksAny([e], cl) <==> Marks(e, cl)
  {
    assert e in [e];
  }

  /** What a step means for one client, in all its parts. */
  ghost predicate StepMeans(s: State, op: Op, r: State, c: Id) {
    && (c in r.clients <==> (op.Connect? && op.c == c) || (c in s.clients && !(op.Free? && op.c == c)))
    && (forall k ::
          Watches(r, c, k) <==> StartsWatch(s, op, DbOf(s, c), c, k) || (Watches(s, c, k) && !EndsWatch(s, op, c)))
    && (c in r.clients ==> DbOf(r, c) == DbAfter(s, op, c, DbOf(s, c), QueueOf(s, c)))
    && (Dirty(r, c) <==> !EndsWatch(s, op, c)
                         && (Dirty(s, c) || exists k :: Watches(s, c, k) && Signals(s, op, k)))
    && (InMulti(r, c) <==> StartsMulti(s, op, c) || (InMulti(s, c) && !EndsMulti(s, op, c)))
    && (Flagged(r, c) <==> !EndsMulti(s, op, c) && (Flagged(s, c) || RefusesToQueue(s, op, c)))
    && QueueOf(r, c) == (if EndsMulti(s, op, c) then [] else QueueOf(s, c))
                        + (if Queues(s, op, c) then [op.cmd] else [])
  }

  ghost predicate InMulti(s: State, c: Id) {
    c in s.clients && s.clients[c].multi
  }

  ghost predicate Flagged(s: State, c: Id) {
    c in s.clients && s.clients[c].dirtyExec
  }

  ghost function QueueOf(s: State, c: Id): seq<Cmd> {
    if c in s.clients then s.clients[c].queue else []
  }

  /** A key that `c` watches is signalled exactly when the signals mark `c`. */
  lemma SignalsMark(s: State, op: Op, c: Id)
    requires c in s.clients
    ensures MarksAny(Signalled(s, op), s.clients[c]) <==> exists k :: Watches(s, c, k) && Signals(s, op, k)
  {
    var es, cl := Signalled(s, op), s.clients[c];
    if MarksAny(es, cl) {
      var e :| e in es && Marks(e, cl);
      var i :| 0 <= i < |cl.watched| && Hits(e, cl.watched[i]);
      assert Watches(s, c, cl.watched[i]) && Signals(s, op, cl.watched[i]);
    }
    if k :| Watches(s, c, k) && Signals(s, op, k) {
      var e :| e in es && Hits(e, k);
      var i :| 0 <= i < |cl.watched| && cl.watched[i] == k;
      assert Marks(e, cl);
    }
  }

  lemma OthersMean(s: State, op: Op, c: Id)
    requires c in s.clients && (op.Background? || op.c != c)
    ensures StepMeans(s, op, Step(s, op).0, c)
  {
    OthersStep(s, op, c);
    SignalsMark(s, op, c);
    hide Step, Signalled, MarksAny;
  }

  lemma OthersAbsent(s: State, op: Op, c: Id)
    requires c !in s.clients && (op.Background? || op.c != c)
    ensures StepMeans(s, op, Step(s, op).0, c)
  {
    if op.Request? && op.c in s.clients { UnwatchKeepsClients(s, op.c); }
    assert c !in Step(s, op).0.clients;
    hide Step;
  }

  lemma ConnectMeans(s: State, c: Id)
    ensures StepMeans(s, Connect(c), Step(s, Connect(c)).0, c)
  {
    assert forall k :: !Signals(s, Connect(c), k);
  }

  lemma FreeMeans(s: State, c: Id)
    ensures StepMeans(s, Free(c), Step(s, Free(c)).0, c)
  {
  }

  /** After `discardTransaction` nothing of the transaction is left. */
  lemma DiscardMeans(s: State, c: Id)
    requires c in s.clients
    ensures var r := DiscardTransaction(s, c);
      r.clients.Keys == s.clients.Keys && r.clients[c] == NEW_CLIENT.(db := s.clients[c].db)
  {
  }

  lemma RunCmdDb(s: State, c: Id, cmd: Cmd, es: seq<Effect>)
    requires c in s.clients
    ensures RunCmd(s, c, cmd, es).clients[c].db == if cmd.Select? then cmd.db else s.clients[c].db
  {
    if cmd.Other? { SignalAllMarks(s, es, c); }
    hide SignalAll, MarksAny;
  }

  /** After a queue has run its client has the db of the last SELECT in it. */
  lemma {:induction false} RunQueueDb(s: State, c: Id, queue: seq<Cmd>, effects: seq<seq<Effect>>, n: nat)
    requires c in s.clients && n <= |queue|
    ensures RunQueue(s, c, queue, effects, n).clients[c].db == LastSelect(queue[..n], s.clients[c].db)
  {
    if n > 0 {
      RunQueueDb(s, c, queue, effects, n - 1);
      RunCmdDb(RunQueue(s, c, queue, effects, n - 1), c, queue[n - 1], EffectsAt(effects, n - 1));
      hide RunCmd;
      assert queue[..n][..n - 1] == queue[..n - 1];
    }
  }

  /** EXEC of a transaction that is not aborted. */
  lemma ExecRuns(s: State, c: Id, effects: seq<seq<Effect>>)
    requires c in s.clients && s.clients[c].multi && !s.clients[c].dirtyCas && !s.clients[c].dirtyExec
    ensures var r := ExecCommand(s, c, effects).0;
      r.clients.Keys == s.clients.Keys
      && r.clients[c] == NEW_CLIENT.(db := LastSelect(s.clients[c].queue, s.clients[c].db))
  {
    var queue, t := s.clients[c].queue, UnwatchAll(s, c);
    UnwatchKeepsClients(s, c);
    assert t.clients[c].db == s.clients[c].db;
    RunQueueDb(t, c, queue, effects, |queue|);
    DiscardMeans(RunQueue(t, c, queue, effects, |queue|), c);
    assert queue[..|queue|] == queue;
    hide DiscardTransaction, RunQueue, UnwatchAll, LastSelect;
  }

  /** EXEC and DISCARD in a transaction. */
  lemma EndMeans(s: State, op: Op, c: Id)
    requires c in s.clients && s.clients[c].multi && op.Request? && op.c == c && op.verdict.Accepted?
    requires op.cmd.Exec? || op.cmd.Discard?
    ensures StepMeans(s, op, Step(s, op).0, c)
  {
    var cl := s.clients[c];
    DiscardMeans(s, c);
    if op.cmd.Exec? && !cl.dirtyCas && !cl.dirtyExec { ExecRuns(s, c, op.effects); }
    hide DiscardTransaction, RunQueue, UnwatchAll, Signalled, LastSelect;
  }

  /** Commands that only change flags: a refused one, a queued one, MULTI, what is not allowed. */
  lemma FlagsMean(s: State, op: Op, c: Id)
    requires c in s.clients && op.Request? && op.c == c
    requires
      || op.verdict.Refused? || op.cmd.Multi?
      || (s.clients[c].multi && !op.cmd.Exec? && !op.cmd.Discard?)
      || (!s.clients[c].multi && (op.cmd.Exec? || op.cmd.Discard?))
    ensures StepMeans(s, op, Step(s, op).0, c)
  {
    assert Signalled(s, op) == [];
    assert forall k :: !Signals(s, op, k);
    hide Signalled, Signals;
  }

  lemma WatchMeans(s: State, op: Op, c: Id)
    requires c in s.clients && op.Request? && op.c == c && op.verdict.Accepted?
    requires !s.clients[c].multi && op.cmd.Watch?
    ensures StepMeans(s, op, Step(s, op).0, c)
  {
    assert forall k :: !Signals(s, op, k);
    forall k {
      WatchFirstWatches(s, c, op.cmd.keys, |op.cmd.keys|, k);
    }
    WatchFirstKeeps(s, c, op.cmd.keys, |op.cmd.keys|, c);
    assert op.cmd.keys[..|op.cmd.keys|] == op.cmd.keys;
    hide WatchFirst, Signalled, Signals;
  }

  lemma OtherMeans(s: State, op: Op, c: Id)
    requires c in s.clients && op.Request? && op.c == c && op.verdict.Accepted?
    requires !s.clients[c].multi && op.cmd.Other?
    ensures StepMeans(s, op, Step(s, op).0, c)
  {
    SignalAllMarks(s, EffectsAt(op.effects, 0), c);
    SignalsMark(s, op, c);
    var r := Step(s, op).0;
    assert Signalled(s, op) == EffectsAt(op.effects, 0) && r == SignalAll(s, EffectsAt(op.effects, 0));
    assert r.clients[c] == s.clients[c].(dirtyCas := s.clients[c].dirtyCas || MarksAny(Signalled(s, op), s.clients[c]));
    assert forall k :: Watches(r, c, k) <==> Watches(s, c, k);
    hide SignalAll, Signalled, Step, Signals, MarksAny, Watches, EffectsAt;
  }

  lemma SelectMeans(s: State, op: Op, c: Id)
    requires c in s.clients && op.Request? && op.c == c && op.verdict.Accepted?
    requires !s.clients[c].multi && (op.cmd.Select? || op.cmd.Unwatch?)
    ensures StepMeans(s, op, Step(s, op).0, c)
  {
    assert forall k :: !Signals(s, op, k);
    hide SignalAll, Signals, Signalled, MarksAny;
  }

  lemma StepMeansAll(s: State, op: Op, c: Id)
    ensures StepMeans(s, op, Step(s, op).0, c)
  {
    hide StepMeans, Step;
    if op.Background? || op.c != c {
      if c in s.clients { OthersMean(s, op, c); } else { OthersAbsent(s, op, c); }
    } else {
      match op
      case Connect(_) => ConnectMeans(s, c);
      case Free(_) => FreeMeans(s, c);
      case Request(_, cmd, verdict, effects) =>
        if c !in s.clients {
          AbsentMeans(s, op, c);
        } else if verdict.Accepted? && s.clients[c].multi && (cmd.Exec? || cmd.Discard?) {
          EndMeans(s, op, c);
        } else if verdict.Accepted? && !s.clients[c].multi && cmd.Watch? {
          WatchMeans(s, op, c);
        } else if verdict.Accepted? && !s.clients[c].multi && cmd.Other? {
          OtherMeans(s, op, c);
        } else if verdict.Accepted? && !s.clients[c].multi && (cmd.Select? || cmd.Unwatch?) {
          SelectMeans(s, op, c);
        } else {
          FlagsMean(s, op, c);
        }
    }
  }

  lemma AbsentMeans(s: State, op: Op, c: Id)
    requires c !in s.clients && op.Request? && op.c == c
    ensures StepMeans(s, op, Step(s, op).0, c)
  {
  }

  // ---- whole runs

  /** The db that `c` has selected: that of the last SELECT that ran for it since it connected, outside a
      transaction or in a queue that EXEC ran; 0 if there was none. */
  ghost function SelectedBy(ops: seq<Op>, c: Id): nat {
    if ops == [] then 0
    else
      var front := ops[..|ops| - 1];
      DbAfter(Run(front), ops[|ops| - 1], c, SelectedBy(front, c), QueuedSince(front, c))
  }

  lemma {:induction false} SelectedIs(ops: seq<Op>, c: Id)
    ensures c in Run(ops).clients ==> Run(ops).clients[c].db == SelectedBy(ops, c)
  {
    if ops != [] {
      var front := ops[..|ops| - 1];
      SelectedIs(front, c);
      QueueIs(front, c);
      StepMeansAll(Run(front), ops[|ops| - 1], c);
      hide Step, QueuedSince, RunsQueue, LastSelect, StartsWatch, EndsWatch, Signals;
    }
  }

  /** `c` began to watch `k` at step `i`, and has not ended it since. */
  ghost predicate WatchingSince(ops: seq<Op>, c: Id, k: WatchedKey, i: nat) {
    && i < |ops| && StartsWatch(Run(ops[..i]), ops[i], SelectedBy(ops[..i], c), c, k)
    && forall j :: i < j < |ops| ==> !EndsWatch(Run(ops[..j]), ops[j], c)
  }

  /** A key watched since step `i` was signalled at step `j`. */
  ghost predicate SignalledSince(ops: seq<Op>, c: Id, k: WatchedKey, i: nat, j: nat) {
    i < j < |ops| && WatchingSince(ops, c, k, i) && Signals(Run(ops[..j]), ops[j], k)
  }

  /** The transaction of `c` began at step `i` and has not ended since. */
  ghost predicate MultiSince(ops: seq<Op>, c: Id, i: nat) {
    && i < |ops| && StartsMulti(Run(ops[..i]), ops[i], c)
    && forall j :: i < j < |ops| ==> !EndsMulti(Run(ops[..j]), ops[j], c)
  }

  /** A command of the transaction was refused at step `i`, and the transaction has not ended since. */
  ghost predicate RefusedSince(ops: seq<Op>, c: Id, i: nat) {
    && i < |ops| && RefusesToQueue(Run(ops[..i]), ops[i], c)
    && forall j :: i < j < |ops| ==> !EndsMulti(Run(ops[..j]), ops[j], c)
  }

  /** The commands of `c` queued since the last end of a transaction of its. */
  ghost function QueuedSince(ops: seq<Op>, c: Id): seq<Cmd> {
    if ops == [] then []
    else
      var front, op := ops[..|ops| - 1], ops[|ops| - 1];
      (if EndsMulti(Run(front), op, c) then [] else QueuedSince(front, c))
      + (if Queues(Run(front), op, c) then [op.cmd] else [])
  }

  lemma Prefixes(ops: seq<Op>)
    requires ops != []
    ensures forall i :: 0 <= i < |ops| ==> ops[..|ops| - 1][..i] == ops[..i]
  {
  }

  /** One step more. */
  lemma WatchingStep(ops: seq<Op>, c: Id, k: WatchedKey, i: nat)
    requires ops != []
    ensures var front, op := ops[..|ops| - 1], ops[|ops| - 1];
      WatchingSince(ops, c, k, i) <==>
        if i == |ops| - 1 then StartsWatch(Run(front), op, SelectedBy(front, c), c, k)
        else WatchingSince(front, c, k, i) && !EndsWatch(Run(front), op, c)
  {
    hide StartsWatch, EndsWatch, Run, SelectedBy;
    Prefixes(ops);
  }

  lemma StartsFrom(s: State, op: Op, db: nat, db': nat, c: Id, k: WatchedKey)
    requires c in s.clients ==> db == db'
    ensures StartsWatch(s, op, db, c, k) <==> StartsWatch(s, op, db', c, k)
  {
  }

  /** A client watches a key if and only if it began to and has not ended it since. */
  lemma {:induction false} WatchedIff(ops: seq<Op>, c: Id, k: WatchedKey)
    ensures Watches(Run(ops), c, k) <==> exists i :: WatchingSince(ops, c, k, i)
  {
    if ops != [] {
      var front, op := ops[..|ops| - 1], ops[|ops| - 1];
      WatchedIff(front, c, k);
      StepMeansAll(Run(front), op, c);
      SelectedIs(front, c);
      StartsFrom(Run(front), op, DbOf(Run(front), c), SelectedBy(front, c), c, k);
      hide StartsWatch, EndsWatch, Step, WatchingSince, SelectedBy, DbAfter;
      if Watches(Run(ops), c, k) {
        if StartsWatch(Run(front), op, SelectedBy(front, c), c, k) {
          WatchingStep(ops, c, k, |ops| - 1);
        } else {
          var i :| WatchingSince(front, c, k, i);
          WatchingWithin(front, c, k, i);
          WatchingStep(ops, c, k, i);
        }
      }
      if i :| WatchingSince(ops, c, k, i) { WatchingStep(ops, c, k, i); }
    }
  }

  lemma WatchingWithin(ops: seq<Op>, c: Id, k: WatchedKey, i: nat)
    requires WatchingSince(ops, c, k, i)
    ensures i < |ops|
  {
  }

  lemma SignalledStep(ops: seq<Op>, c: Id, k: WatchedKey, i: nat, j: nat)
    requires ops != []
    ensures var front, op := ops[..|ops| - 1], ops[|ops| - 1];
      SignalledSince(ops, c, k, i, j) <==>
        && !EndsWatch(Run(front), op, c)
        && if j == |ops| - 1 then WatchingSince(front, c, k, i) && Signals(Run(front), op, k)
           else SignalledSince(front, c, k, i, j)
  {
    hide StartsWatch, EndsWatch, Run, Signals;
    Prefixes(ops);
    WatchingStep(ops, c, k, i);
  }

  /** The flag is up if and only if a watched key was signalled since it was watched. */
  lemma {:induction false} DirtyIff(ops: seq<Op>, c: Id)
    ensures Dirty(Run(ops), c) <==> exists k, i, j :: SignalledSince(ops, c, k, i, j)
  {
    if ops != [] {
      var front, op := ops[..|ops| - 1], ops[|ops| - 1];
      DirtyIff(front, c);
      StepMeansAll(Run(front), op, c);
      hide StartsWatch, EndsWatch, Step, WatchingSince, SignalledSince, Signals, Watches;
      if Dirty(Run(ops), c) {
        if Dirty(Run(front), c) {
          var k, i, j :| SignalledSince(front, c, k, i, j);
          SignalledWithin(front, c, k, i, j);
          SignalledStep(ops, c, k, i, j);
        } else {
          var k :| Watches(Run(front), c, k) && Signals(Run(front), op, k);
          WatchedIff(front, c, k);
          var i :| WatchingSince(front, c, k, i);
          SignalledStep(ops, c, k, i, |ops| - 1);
        }
      }
      if k, i, j :| SignalledSince(ops, c, k, i, j) {
        SignalledStep(ops, c, k, i, j);
        if j == |ops| - 1 { WatchedIff(front, c, k); }
      }
    }
  }

  lemma SignalledWithin(ops: seq<Op>, c: Id, k: WatchedKey, i: nat, j: nat)
    requires SignalledSince(ops, c, k, i, j)
    ensures j < |ops|
  {
  }

  lemma MultiStep(ops: seq<Op>, c: Id, i: nat)
    requires ops != []
    ensures var front, op := ops[..|ops| - 1], ops[|ops| - 1];
      MultiSince(ops, c, i) <==>
        if i == |ops| - 1 then StartsMulti(Run(front), op, c)
        else MultiSince(front, c, i) && !EndsMulti(Run(front), op, c)
  {
    hide StartsMulti, EndsMulti, Run;
    Prefixes(ops);
  }

  /** A client is in a transaction if and only if it began one and has not ended it since. */
  lemma {:induction false} MultiIff(ops: seq<Op>, c: Id)
    ensures InMulti(Run(ops), c) <==> exists i :: MultiSince(ops, c, i)
  {
    if ops != [] {
      var front, op := ops[..|ops| - 1], ops[|ops| - 1];
      MultiIff(front, c);
      StepMeansAll(Run(front), op, c);
      hide StartsMulti, EndsMulti, Step, MultiSince, InMulti;
      if InMulti(Run(ops), c) {
        if StartsMulti(Run(front), op, c) {
          MultiStep(ops, c, |ops| - 1);
        } else {
          var i :| MultiSince(front, c, i);
          MultiWithin(front, c, i);
          MultiStep(ops, c, i);
        }
      }
      if i :| MultiSince(ops, c, i) { MultiStep(ops, c, i); }
    }
  }

  lemma MultiWithin(ops: seq<Op>, c: Id, i: nat)
    requires MultiSince(ops, c, i) || RefusedSince(ops, c, i)
    ensures i < |ops|
  {
  }

  lemma RefusedStep(ops: seq<Op>, c: Id, i: nat)
    requires ops != []
    ensures var front, op := ops[..|ops| - 1], ops[|ops| - 1];
      RefusedSince(ops, c, i) <==>
        if i == |ops| - 1 then RefusesToQueue(Run(front), op, c)
        else RefusedSince(front, c, i) && !EndsMulti(Run(front), op, c)
  {
    hide RefusesToQueue, EndsMulti, Run;
    Prefixes(ops);
  }

  /** The flag of a queueing error is up if and only if a command was refused and the transaction goes on. */
  lemma {:induction false} FlaggedIff(ops: seq<Op>, c: Id)
    ensures Flagged(Run(ops), c) <==> exists i :: RefusedSince(ops, c, i)
  {
    if ops != [] {
      var front, op := ops[..|ops| - 1], ops[|ops| - 1];
      FlaggedIff(front, c);
      StepMeansAll(Run(front), op, c);
      RefusedEndsNothing(Run(front), op, c);
      hide RefusesToQueue, EndsMulti, Step, RefusedSince, Flagged;
      if Flagged(Run(ops), c) {
        if RefusesToQueue(Run(front), op, c) {
          RefusedStep(ops, c, |ops| - 1);
        } else {
          var i :| RefusedSince(front, c, i);
          MultiWithin(front, c, i);
          RefusedStep(ops, c, i);
        }
      }
      if i :| RefusedSince(ops, c, i) { RefusedStep(ops, c, i); }
    }
  }

  lemma RefusedEndsNothing(s: State, op: Op, c: Id)
    ensures RefusesToQueue(s, op, c) ==> !EndsMulti(s, op, c)
  {
  }

  lemma {:induction false} QueueIs(ops: seq<Op>, c: Id)
    ensures QueueOf(Run(ops), c) == QueuedSince(ops, c)
  {
    if ops != [] {
      QueueIs(ops[..|ops| - 1], c);
      StepMeansAll(Run(ops[..|ops| - 1]), ops[|ops| - 1], c);
      hide EndsMulti, Queues, Step, QueueOf;
    }
  }

  /** EXEC runs exactly the commands queued since MULTI, in order, if and only if no watched key was
      signalled since it was watched and no command was refused; else it runs nothing. */
  lemma ExecSafety(ops: seq<Op>, c: Id, effects: seq<seq<Effect>>)
    requires c in Run(ops).clients
    ensures var s, op := Run(ops), Request(c, Exec, Accepted, effects);
      var (r, out) := Step(s, op);
      var multi := exists i :: MultiSince(ops, c, i);
      var signalled := exists k, i, j :: SignalledSince(ops, c, k, i, j);
      var refused := exists i :: RefusedSince(ops, c, i);
      && (out.Executed? <==> multi && !signalled && !refused)
      && (out.Executed? ==> out.cmds == QueuedSince(ops, c))
      && (out.ExecAbort? <==> multi && refused)
      && (out.Nil? <==> multi && signalled && !refused)
      && (!out.Executed? ==> forall d :: d in s.clients && d != c ==> d in r.clients && r.clients[d] == s.clients[d])
      && !InMulti(r, c) && (multi ==> forall k :: !Watches(r, c, k))
      && (multi ==> !Dirty(r, c) && !Flagged(r, c) && QueueOf(r, c) == [])
  {
    var s, op := Run(ops), Request(c, Exec, Accepted, effects);
    MultiIff(ops, c);
    DirtyIff(ops, c);
    FlaggedIff(ops, c);
    QueueIs(ops, c);
    StepMeansAll(s, op, c);
    hide Run, SignalledSince, MultiSince, RefusedSince, QueuedSince, RunQueue;
  }

  /** What a request comes to: in a transaction commands are queued, but for the four that are not; MULTI and
      WATCH are not allowed in one, EXEC and DISCARD not outside one. */
  lemma OutcomeIs(ops: seq<Op>, c: Id, cmd: Cmd, verdict: Verdict, effects: seq<seq<Effect>>)
    requires c in Run(ops).clients
    ensures var out := Step(Run(ops), Request(c, cmd, verdict, effects)).1;
      var multi := exists i :: MultiSince(ops, c, i);
      && (out.Queued? <==>
            && multi && verdict.Accepted?
            && !cmd.Exec? && !cmd.Discard? && !cmd.Multi? && !cmd.Watch?)
      && (out.Error? <==>
            || verdict.Refused?
            || (multi && (cmd.Multi? || cmd.Watch?))
            || (!multi && (cmd.Exec? || cmd.Discard?)))
      && (out.Executed? || out.ExecAbort? || out.Nil? ==> cmd.Exec?)
  {
    MultiIff(ops, c);
    hide Run, MultiSince, RunCmd, RunQueue, UnwatchAll, WatchFirst, DiscardTransaction;
  }
}
