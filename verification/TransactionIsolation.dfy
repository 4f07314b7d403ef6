/** EXEC as one step: it does what its client would do by sending the queued commands one after the other,
    outside any transaction, with nothing in between. */
module TransactionIsolation {
  import opened Transactions
  import opened TransactionRuns

  /** The client without transaction, flags and watched keys. */
  ghost function Clear(s: State, c: Id): State
    requires c in s.clients
  {
    s.(clients := s.clients[c := NEW_CLIENT.(db := s.clients[c].db)])
  }

  /** The first `n` commands sent as requests, one after the other. */
  ghost function SendAll(s: State, c: Id, cmds: seq<Cmd>, effects: seq<seq<Effect>>, n: nat): State
    requires n <= |cmds|
  {
    if n == 0 then s
    else Step(SendAll(s, c, cmds, effects, n - 1),
              Request(c, cmds[n - 1], Accepted, [EffectsAt(effects, n - 1)])).0
  }

  /** The client is in no list, and no list is empty. */
  ghost predicate WatchesNothing(s: State, c: Id) {
    && c in s.clients && s.clients[c].watched == []
    && forall k :: k in s.watchers ==> c !in s.watchers[k] && s.watchers[k] != []
  }

  /** Then there is nothing to unwatch. */
  lemma UnwatchNothing(s: State, c: Id)
    requires WatchesNothing(s, c)
    ensures UnwatchAll(s, c) == s
  {
    forall k | k in s.watchers ensures Without(s.watchers[k], c) == s.watchers[k] {
      WithoutAbsent(s.watchers[k], c);
    }
    assert UnwatchAll(s, c).watchers == s.watchers;
    assert s.clients[c := s.clients[c].(watched := [])] == s.clients;
  }

  lemma UnwatchAllWatchesNothing(s: State, c: Id)
    requires c in s.clients
    ensures WatchesNothing(UnwatchAll(s, c), c)
    ensures DiscardTransaction(s, c) == Clear(UnwatchAll(s, c), c)
  {
  }

  lemma DiscardIsClear(s: State, c: Id)
    requires WatchesNothing(s, c)
    ensures DiscardTransaction(s, c) == Clear(s, c)
  {
    UnwatchAllWatchesNothing(s, c);
    UnwatchNothing(s, c);
  }

  /** Signals pass by a client that watches nothing. */
  lemma {:induction false} SignalAllClear(s: State, c: Id, es: seq<Effect>)
    requires WatchesNothing(s, c)
    ensures WatchesNothing(SignalAll(s, es), c)
    ensures Clear(SignalAll(s, es), c) == SignalAll(Clear(s, c), es)
  {
    if es != [] {
      SignalAllClear(s, c, es[..|es| - 1]);
      SignalClear(SignalAll(s, es[..|es| - 1]), c, es[|es| - 1]);
      hide Signal, Clear, WatchesNothing;
    }
  }

  lemma SignalClear(s: State, c: Id, e: Effect)
    requires WatchesNothing(s, c)
    ensures WatchesNothing(Signal(s, e), c)
    ensures Clear(Signal(s, e), c) == Signal(Clear(s, c), e)
  {
    assert Clear(Signal(s, e), c).clients == Signal(Clear(s, c), e).clients;
  }

  /** Clearing the client before or after a command it runs comes to the same. */
  lemma RunCmdClear(s: State, c: Id, cmd: Cmd, es: seq<Effect>)
    requires WatchesNothing(s, c)
    ensures WatchesNothing(RunCmd(s, c, cmd, es), c)
    ensures Clear(RunCmd(s, c, cmd, es), c) == RunCmd(Clear(s, c), c, cmd, es)
  {
    match cmd
    case Other(_) => SignalAllClear(s, c, es);
    case Unwatch =>
      UnwatchNothing(s, c);
      UnwatchNothing(Clear(s, c), c);
    case _ =>
  }

  /** Outside a transaction, a command that can be queued is run at once. */
  lemma SentIsRun(s: State, c: Id, cmd: Cmd, es: seq<Effect>)
    requires c in s.clients && !s.clients[c].multi && !NeverQueued(cmd)
    ensures Step(s, Request(c, cmd, Accepted, [es])).0 == RunCmd(s, c, cmd, es)
  {
    hide RunCmd;
  }

  lemma OneIsSent(t: State, c: Id, cmd: Cmd, es: seq<Effect>)
    requires WatchesNothing(t, c) && !NeverQueued(cmd)
    ensures WatchesNothing(RunCmd(t, c, cmd, es), c)
    ensures Clear(RunCmd(t, c, cmd, es), c) == Step(Clear(t, c), Request(c, cmd, Accepted, [es])).0
  {
    RunCmdClear(t, c, cmd, es);
    assert c in Clear(t, c).clients && !Clear(t, c).clients[c].multi;
    hide Clear, RunCmd, Step, NeverQueued;
    SentIsRun(Clear(t, c), c, cmd, es);
  }

  lemma {:induction false} QueueIsSent(s: State, c: Id, cmds: seq<Cmd>, effects: seq<seq<Effect>>, n: nat)
    requires WatchesNothing(s, c) && n <= |cmds|
    requires forall i :: 0 <= i < |cmds| ==> !NeverQueued(cmds[i])
    ensures WatchesNothing(RunQueue(s, c, cmds, effects, n), c)
    ensures Clear(RunQueue(s, c, cmds, effects, n), c) == SendAll(Clear(s, c), c, cmds, effects, n)
  {
    if n > 0 {
      QueueIsSent(s, c, cmds, effects, n - 1);
      OneIsSent(RunQueue(s, c, cmds, effects, n - 1), c, cmds[n - 1], EffectsAt(effects, n - 1));
    }
    hide WatchesNothing, Clear, RunCmd, Step, EffectsAt;
  }

  /** No queue ever holds MULTI, EXEC, DISCARD or WATCH. */
  lemma {:induction false} QueuedOnly(ops: seq<Op>, c: Id)
    ensures forall i :: 0 <= i < |QueuedSince(ops, c)| ==> !NeverQueued(QueuedSince(ops, c)[i])
  {
    if ops != [] { QueuedOnly(ops[..|ops| - 1], c); }
  }

  /** When EXEC runs its queue, the state it leaves is the one its client would reach by ending the
      transaction and then sending the queued commands one after the other, undisturbed. */
  lemma ExecIsSequence(ops: seq<Op>, c: Id, effects: seq<seq<Effect>>)
    requires c in Run(ops).clients
    ensures var s := Run(ops);
      var (r, out) := Step(s, Request(c, Exec, Accepted, effects));
      out.Executed? ==> r == SendAll(DiscardTransaction(s, c), c, out.cmds, effects, |out.cmds|)
  {
    var s := Run(ops);
    QueueIs(ops, c);
    QueuedOnly(ops, c);
    var queue, t := s.clients[c].queue, UnwatchAll(s, c);
    UnwatchAllWatchesNothing(s, c);
    QueueIsSent(t, c, queue, effects, |queue|);
    DiscardIsClear(RunQueue(t, c, queue, effects, |queue|), c);
    hide WatchesNothing, Clear, RunQueue, SendAll, UnwatchAll, DiscardTransaction, Run, QueuedSince, NeverQueued;
  }
}
