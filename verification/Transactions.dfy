/** multi.c and the dispatch of `processCommand`: what WATCH, MULTI, EXEC and the commands of other clients
    do to the flags, the queues and the two-sided index of watched keys, and what that means for whole
    runs. Clients are named by ids; commands that are neither of these are known by their effects on keys. */
module Transactions {
  import opened Bytes

  type Id = nat

  datatype WatchedKey = WatchedKey(db: nat, key: bytes)

  datatype Cmd = Multi | Exec | Discard | Watch(keys: seq<bytes>) | Unwatch | Select(db: nat) | Other(name: nat)

  /** What running a command signals: a modified key, or the flush of a db (or all) with its keys. */
  datatype Effect = Touch(k: WatchedKey) | Flush(db: Option<nat>, present: set<WatchedKey>)

  datatype Client = Client(db: nat, multi: bool, dirtyCas: bool, dirtyExec: bool,
                           watched: seq<WatchedKey>, queue: seq<Cmd>)

  /** The clients, and the watchers of each key (`watched_keys` of all dbs). */
  datatype State = State(clients: map<Id, Client>, watchers: map<WatchedKey, seq<Id>>)

  const NEW_CLIENT := Client(0, false, false, false, [], [])

  /** Whether the checks of `processCommand` let a command pass; most of those that do not flag a
      transaction. */
  datatype Verdict = Accepted | Refused(flags: bool)

  /** One step of the server. `effects` are those of the command, or of each queued command. */
  datatype Op =
    | Connect(c: Id)
    | Free(c: Id)
    | Request(c: Id, cmd: Cmd, verdict: Verdict, effects: seq<seq<Effect>>)
    | Background(e: Effect)

  datatype Outcome = Done | Error | Queued | Executed(cmds: seq<Cmd>) | ExecAbort | Nil

  // ---- watching

  /** `watchForKey`. */
  function WatchOne(s: State, c: Id, k: WatchedKey): State
    requires c in s.clients
  {
    if k in s.clients[c].watched then s
    else
      var l := if k in s.watchers then s.watchers[k] else [];
      State(s.clients[c := s.clients[c].(watched := s.clients[c].watched + [k])], s.watchers[k := l + [c]])
  }

  /** The loop of `watchCommand`. */
  function WatchFirst(s: State, c: Id, keys: seq<bytes>, n: nat): (r: State)
    requires c in s.clients && n <= |keys|
    ensures r.clients.Keys == s.clients.Keys
  {
    if n == 0 then s
    else WatchOne(WatchFirst(s, c, keys, n - 1), c, WatchedKey(s.clients[c].db, keys[n - 1]))
  }

  lemma {:induction false} WatchFirstKeeps(s: State, c: Id, keys: seq<bytes>, n: nat, d: Id)
    requires c in s.clients && n <= |keys| && d in s.clients
    ensures var r := WatchFirst(s, c, keys, n);
      r.clients[d] == if d == c then s.clients[d].(watched := r.clients[d].watched) else s.clients[d]
  {
    if n > 0 { WatchFirstKeeps(s, c, keys, n - 1, d); }
  }

  function Without(l: seq<Id>, c: Id): (r: seq<Id>)
    ensures forall d :: d in r <==> d in l && d != c
  {
    if l == [] then [] else (if l[0] == c then [] else [l[0]]) + Without(l[1..], c)
  }

  lemma {:induction false} WithoutAbsent(l: seq<Id>, c: Id)
    requires c !in l
    ensures Without(l, c) == l
  {
    if l != [] { WithoutAbsent(l[1..], c); }
  }

  /** `unwatchAllKeys`: the client leaves all lists; a list left empty goes. */
  function UnwatchAll(s: State, c: Id): State
    requires c in s.clients
  {
    State(s.clients[c := s.clients[c].(watched := [])],
          map k | k in s.watchers && Without(s.watchers[k], c) != [] :: Without(s.watchers[k], c))
  }

  // ---- signals

  predicate Hits(e: Effect, k: WatchedKey) {
    match e
    case Touch(k') => k == k'
    case Flush(db, present) => (db.None? || db.value == k.db) && k in present
  }

  predicate Marks(e: Effect, cl: Client) {
    exists i :: 0 <= i < |cl.watched| && Hits(e, cl.watched[i])
  }

  function Mark(cl: Client, e: Effect): Client {
    if Marks(e, cl) then cl.(dirtyCas := true) else cl
  }

  /** `touchWatchedKey`, `touchWatchedKeysOnFlush`. */
  function Signal(s: State, e: Effect): State {
    State(map c | c in s.clients :: Mark(s.clients[c], e), s.watchers)
  }

  function SignalAll(s: State, es: seq<Effect>): (r: State)
    ensures r.clients.Keys == s.clients.Keys
  {
    if es == [] then s else Signal(SignalAll(s, es[..|es| - 1]), es[|es| - 1])
  }

  // ---- commands

  /** A command that is run rather than queued. WATCH, MULTI, EXEC and DISCARD are never queued. */
  function RunCmd(s: State, c: Id, cmd: Cmd, es: seq<Effect>): (r: State)
    requires c in s.clients
    ensures r.clients.Keys == s.clients.Keys
  {
    match cmd
    case Select(db) => s.(clients := s.clients[c := s.clients[c].(db := db)])
    case Unwatch => ClearCas(UnwatchAll(s, c), c)
    case Other(_) => SignalAll(s, es)
    case _ => s
  }

  function ClearCas(s: State, c: Id): State
    requires c in s.clients
  {
    s.(clients := s.clients[c := s.clients[c].(dirtyCas := false)])
  }

  function EffectsAt(effects: seq<seq<Effect>>, j: nat): seq<Effect> {
    if j < |effects| then effects[j] else []
  }

  /** The first `n` commands of a queue. */
  function RunQueue(s: State, c: Id, queue: seq<Cmd>, effects: seq<seq<Effect>>, n: nat): (r: State)
    requires c in s.clients && n <= |queue|
    ensures r.clients.Keys == s.clients.Keys
  {
    if n == 0 then s
    else RunCmd(RunQueue(s, c, queue, effects, n - 1), c, queue[n - 1], EffectsAt(effects, n - 1))
  }

  /** `discardTransaction`. */
  function DiscardTransaction(s: State, c: Id): State
    requires c in s.clients
  {
    var cl := s.clients[c].(queue := [], multi := false, dirtyCas := false, dirtyExec := false);
    UnwatchAll(s.(clients := s.clients[c := cl]), c)
  }

  /** `execCommand`. */
  function ExecCommand(s: State, c: Id, effects: seq<seq<Effect>>): (State, Outcome)
    requires c in s.clients
  {
    var cl := s.clients[c];
    if !cl.multi then (s, Error)
    else if cl.dirtyCas || cl.dirtyExec then
      (DiscardTransaction(s, c), if cl.dirtyExec then ExecAbort else Nil)
    else
      var r := RunQueue(UnwatchAll(s, c), c, cl.queue, effects, |cl.queue|);
      (DiscardTransaction(r, c), Executed(cl.queue))
  }

  predicate NeverQueued(cmd: Cmd) {
    cmd.Exec? || cmd.Discard? || cmd.Multi? || cmd.Watch?
  }

  /** `processCommand`. */
  function Process(s: State, c: Id, cmd: Cmd, verdict: Verdict, effects: seq<seq<Effect>>): (State, Outcome)
    requires c in s.clients
  {
    var cl := s.clients[c];
    if verdict.Refused? then
      (s.(clients := s.clients[c := cl.(dirtyExec := cl.dirtyExec || (verdict.flags && cl.multi))]), Error)
    else if cl.multi && !NeverQueued(cmd) then
      (s.(clients := s.clients[c := cl.(queue := cl.queue + [cmd])]), Queued)
    else match cmd
      case Multi => if cl.multi then (s, Error) else (s.(clients := s.clients[c := cl.(multi := true)]), Done)
      case Exec => ExecCommand(s, c, effects)
      case Discard => if cl.multi then (DiscardTransaction(s, c), Done) else (s, Error)
      case Watch(keys) => if cl.multi then (s, Error) else (WatchFirst(s, c, keys, |keys|), Done)
      case _ => (RunCmd(s, c, cmd, EffectsAt(effects, 0)), Done)
  }

  function FreeClient(s: State, c: Id): State
    requires c in s.clients
  {
    var r := UnwatchAll(s, c);
    r.(clients := r.clients - {c})
  }

  /** One step; requests of clients that are not there do not happen. */
  function Step(s: State, op: Op): (State, Outcome) {
    match op
    case Connect(c) => if c in s.clients then (s, Error) else (s.(clients := s.clients[c := NEW_CLIENT]), Done)
    case Free(c) => if c in s.clients then (FreeClient(s, c), Done) else (s, Error)
    case Request(c, cmd, verdict, effects) =>
      if c in s.clients then Process(s, c, cmd, verdict, effects) else (s, Error)
    case Background(e) => (Signal(s, e), Done)
  }

  function Run(ops: seq<Op>): State {
    if ops == [] then State(map[], map[]) else Step(Run(ops[..|ops| - 1]), ops[|ops| - 1]).0
  }

  // ---- the index is two-sided

  ghost predicate NoDup<T>(l: seq<T>) {
    forall i, j :: 0 <= i < j < |l| ==> l[i] != l[j]
  }

  ghost predicate Watches(s: State, c: Id, k: WatchedKey) {
    c in s.clients && k in s.clients[c].watched
  }

  ghost predicate WatchedBy(s: State, c: Id, k: WatchedKey) {
    k in s.watchers && c in s.watchers[k]
  }

  /** The lists of the clients and the lists of the keys are inverse; no list holds anything twice, and no
      key has an empty list. */
  ghost predicate Inv(s: State) {
    && (forall c :: c in s.clients ==> NoDup(s.clients[c].watched))
    && (forall k :: k in s.watchers ==> s.watchers[k] != [] && NoDup(s.watchers[k]))
    && (forall c, k :: Watches(s, c, k) <==> WatchedBy(s, c, k))
  }

  lemma WatchOneKeepsInv(s: State, c: Id, k: WatchedKey)
    requires Inv(s) && c in s.clients
    ensures Inv(WatchOne(s, c, k))
  {
    var r := WatchOne(s, c, k);
    if k !in s.clients[c].watched {
      assert !WatchedBy(s, c, k);
      forall d, k' ensures Watches(r, d, k') <==> WatchedBy(r, d, k') {
        assert Watches(s, d, k') <==> WatchedBy(s, d, k');
      }
    }
  }

  lemma {:induction false} WatchFirstKeepsInv(s: State, c: Id, keys: seq<bytes>, n: nat)
    requires Inv(s) && c in s.clients && n <= |keys|
    ensures Inv(WatchFirst(s, c, keys, n))
  {
    if n > 0 {
      hide Inv, WatchOne;
      WatchFirstKeepsInv(s, c, keys, n - 1);
      WatchOneKeepsInv(WatchFirst(s, c, keys, n - 1), c, WatchedKey(s.clients[c].db, keys[n - 1]));
    }
  }

  lemma {:induction false} WithoutNoDup(l: seq<Id>, c: Id)
    requires NoDup(l)
    ensures NoDup(Without(l, c))
  {
    if l != [] {
      WithoutNoDup(l[1..], c);
      assert forall i :: 0 < i < |l| ==> l[i] == l[1..][i - 1];
      assert l[0] !in Without(l[1..], c);
    }
  }

  lemma UnwatchAllKeepsInv(s: State, c: Id)
    requires Inv(s) && c in s.clients
    ensures Inv(UnwatchAll(s, c))
  {
    var r := UnwatchAll(s, c);
    forall k | k in r.watchers ensures NoDup(r.watchers[k]) {
      WithoutNoDup(s.watchers[k], c);
    }
    forall d, k ensures Watches(r, d, k) <==> WatchedBy(r, d, k) {
      assert Watches(s, d, k) <==> WatchedBy(s, d, k);
    }
  }

  /** A change that leaves every watched list as it is keeps the invariant. */
  lemma SameIndexKeepsInv(s: State, r: State)
    requires Inv(s) && r.watchers == s.watchers && r.clients.Keys == s.clients.Keys
    requires forall c :: c in s.clients ==> r.clients[c].watched == s.clients[c].watched
    ensures Inv(r)
  {
    forall d, k ensures Watches(r, d, k) <==> WatchedBy(r, d, k) {
      assert Watches(s, d, k) <==> WatchedBy(s, d, k);
    }
  }

  lemma {:induction false} SignalAllKeepsInv(s: State, es: seq<Effect>)
    requires Inv(s)
    ensures Inv(SignalAll(s, es))
  {
    if es != [] {
      SignalAllKeepsInv(s, es[..|es| - 1]);
      SameIndexKeepsInv(SignalAll(s, es[..|es| - 1]), SignalAll(s, es));
    }
  }

  lemma RunCmdKeepsInv(s: State, c: Id, cmd: Cmd, es: seq<Effect>)
    requires Inv(s) && c in s.clients
    ensures Inv(RunCmd(s, c, cmd, es))
  {
    match cmd
    case Select(db) => SameIndexKeepsInv(s, RunCmd(s, c, cmd, es));
    case Unwatch =>
      UnwatchAllKeepsInv(s, c);
      SameIndexKeepsInv(UnwatchAll(s, c), RunCmd(s, c, cmd, es));
    case Other(_) => SignalAllKeepsInv(s, es);
    case _ =>
  }

  lemma {:induction false} RunQueueKeepsInv(s: State, c: Id, queue: seq<Cmd>, effects: seq<seq<Effect>>, n: nat)
    requires Inv(s) && c in s.clients && n <= |queue|
    ensures Inv(RunQueue(s, c, queue, effects, n))
  {
    if n > 0 {
      RunQueueKeepsInv(s, c, queue, effects, n - 1);
      RunCmdKeepsInv(RunQueue(s, c, queue, effects, n - 1), c, queue[n - 1], EffectsAt(effects, n - 1));
    }
  }

  lemma DiscardKeepsInv(s: State, c: Id)
    requires Inv(s) && c in s.clients
    ensures Inv(DiscardTransaction(s, c))
  {
    var cl := s.clients[c].(queue := [], multi := false, dirtyCas := false, dirtyExec := false);
    SameIndexKeepsInv(s, s.(clients := s.clients[c := cl]));
    UnwatchAllKeepsInv(s.(clients := s.clients[c := cl]), c);
  }

  lemma ProcessKeepsInv(s: State, c: Id, cmd: Cmd, verdict: Verdict, effects: seq<seq<Effect>>)
    requires Inv(s) && c in s.clients
    ensures Inv(Process(s, c, cmd, verdict, effects).0)
  {
    hide Inv, RunQueue, RunCmd, UnwatchAll, DiscardTransaction, WatchFirst;
    var cl, r := s.clients[c], Process(s, c, cmd, verdict, effects).0;
    if verdict.Refused? || (cl.multi && !NeverQueued(cmd)) || cmd.Multi? {
      SameIndexKeepsInv(s, r);
    } else if cmd.Exec? {
      if cl.multi && !cl.dirtyCas && !cl.dirtyExec {
        UnwatchAllKeepsInv(s, c);
        UnwatchKeepsClients(s, c);
        RunQueueKeepsInv(UnwatchAll(s, c), c, cl.queue, effects, |cl.queue|);
        DiscardKeepsInv(RunQueue(UnwatchAll(s, c), c, cl.queue, effects, |cl.queue|), c);
      } else {
        DiscardKeepsInv(s, c);
      }
    } else if cmd.Discard? {
      DiscardKeepsInv(s, c);
    } else if cmd.Watch? {
      WatchFirstKeepsInv(s, c, cmd.keys, |cmd.keys|);
    } else {
      RunCmdKeepsInv(s, c, cmd, EffectsAt(effects, 0));
    }
  }

  lemma UnwatchKeepsClients(s: State, c: Id)
    requires c in s.clients
    ensures UnwatchAll(s, c).clients.Keys == s.clients.Keys
  {
  }

  lemma StepKeepsInv(s: State, op: Op)
    requires Inv(s)
    ensures Inv(Step(s, op).0)
  {
    match op
    case Request(c, cmd, verdict, effects) =>
      if c in s.clients { ProcessKeepsInv(s, c, cmd, verdict, effects); }
    case Background(e) => SameIndexKeepsInv(s, Signal(s, e));
    case Connect(c) => ConnectKeepsInv(s, c);
    case Free(c) => if c in s.clients { FreeKeepsInv(s, c); }
  }

  lemma ConnectKeepsInv(s: State, c: Id)
    requires Inv(s)
    ensures Inv(Step(s, Connect(c)).0)
  {
    var r := Step(s, Connect(c)).0;
    forall d, k ensures Watches(r, d, k) <==> WatchedBy(r, d, k) {
      assert Watches(s, d, k) <==> WatchedBy(s, d, k);
    }
  }

  lemma FreeKeepsInv(s: State, c: Id)
    requires Inv(s) && c in s.clients
    ensures Inv(FreeClient(s, c))
  {
    UnwatchAllKeepsInv(s, c);
    var t, r := UnwatchAll(s, c), FreeClient(s, c);
    forall d, k ensures Watches(r, d, k) <==> WatchedBy(r, d, k) {
      assert Watches(t, d, k) <==> WatchedBy(t, d, k);
    }
  }

  lemma {:induction false} RunKeepsInv(ops: seq<Op>)
    ensures Inv(Run(ops))
  {
    if ops != [] {
      RunKeepsInv(ops[..|ops| - 1]);
      StepKeepsInv(Run(ops[..|ops| - 1]), ops[|ops| - 1]);
    }
  }
}
