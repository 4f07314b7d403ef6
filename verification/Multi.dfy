/** multi.c: the server object whose client records and watcher lists the commands update step by step. Its
    methods are the steps of `Transactions`. */
module Multi {
  import opened Bytes
  import opened Transactions

  class Server {
    var clients: map<Id, Client>
    var watchers: map<WatchedKey, seq<Id>>

    ghost function Now(): State
      reads this
    {
      State(clients, watchers)
    }

    /** The index of watched keys is two-sided. */
    ghost predicate Valid()
      reads this
    {
      Inv(Now())
    }


    constructor ()
      ensures Now() == Run([]) && Valid()
    {
      clients, watchers := map[], map[];
    }

    /** `watchForKey`, with its search of the client's own list. */
    method WatchForKey(c: Id, key: bytes)
      requires c in clients
      modifies this
      ensures Now() == WatchOne(old(Now()), c, WatchedKey(old(clients)[c].db, key))
    {
      var wk := WatchedKey(clients[c].db, key);
      var i := 0;
      while i < |clients[c].watched|
        invariant i <= |clients[c].watched| && wk !in clients[c].watched[..i]
        invariant Now() == old(Now())
      {
        if clients[c].watched[i] == wk { return; }
        i := i + 1;
      }
      assert clients[c].watched[..i] == clients[c].watched;
      if wk !in watchers { watchers := watchers[wk := []]; }
      watchers := watchers[wk := watchers[wk] + [c]];
      clients := clients[c := clients[c].(watched := clients[c].watched + [wk])];
    }

    /** `watchCommand`. */
    method WatchCommand(c: Id, keys: seq<bytes>) returns (out: Outcome)
      requires c in clients
      modifies this
      ensures (Now(), out) == Process(old(Now()), c, Watch(keys), Accepted, [])
    {
      if clients[c].multi { return Error; }
      ghost var s := Now();
      var j := 0;
      while j < |keys|
        invariant j <= |keys| && Now() == WatchFirst(s, c, keys, j)
      {
        WatchFirstKeeps(s, c, keys, j, c);
        WatchForKey(c, keys[j]);
        j := j + 1;
      }
      out := Done;
    }

    /** `listDelNode(l, listSearchKey(l, c))`: the first occurrence goes. */
    static method Remove(l: seq<Id>, c: Id) returns (r: seq<Id>)
      requires c in l && NoDup(l)
      ensures r == Without(l, c)
    {
      var i := 0;
      while l[i] != c
        invariant i < |l| && c !in l[..i]
        decreases |l| - i
      {
        assert l[..i + 1] == l[..i] + [l[i]];
        i := i + 1;
      }
      RemoveFirst(l, c, i);
      r := l[..i] + l[i + 1..];
    }

    /** `unwatchAllKeys`: from the front of the client's list, one key at a time. */
    method UnwatchAllKeys(c: Id)
      requires c in clients && Valid()
      modifies this
      ensures Now() == UnwatchAll(old(Now()), c)
    {
      ghost var s := Now();
      ghost var n := 0;
      UnwatchingStarts(s, c);
      hide *;
      while |clients[c].watched| > 0
        invariant c in s.clients && c in clients && n <= |s.clients[c].watched| && Underway(s, c, n, Now())
        decreases |s.clients[c].watched| - n
      {
        UnwatchNextKey(c, s, n);
        n := n + 1;
      }
      UnwatchingLeft(s, c, n, Now());
      UnwatchedAll(s, c, Now());
    }

    /** One turn of the loop, as seen from its beginning. */
    method UnwatchNextKey(c: Id, ghost s: State, ghost n: nat)
      requires c in clients && clients[c].watched != [] && Underway(s, c, n, Now())
      modifies this
      ensures c in s.clients && c in clients && n + 1 <= |s.clients[c].watched| && Underway(s, c, n + 1, Now())
    {
      hide Inv, Underway, TakenOut, NoDup, Without;
      UnwatchingLeft(s, c, n, Now());
      UnwatchFirst(s, c, n, Now());
      UnwatchNext(s, c, n, Now());
      UnwatchFirstKey(c);
      UnwatchingLeft(s, c, n + 1, Now());
    }

    /** One turn of the loop. */
    method UnwatchFirstKey(c: Id)
      requires c in clients && clients[c].watched != [] && clients[c].watched[0] in watchers
      requires c in watchers[clients[c].watched[0]] && NoDup(watchers[clients[c].watched[0]])
      modifies this
      ensures Now() == TakenOut(old(Now()), c)
    {
      var wk := clients[c].watched[0];
      var l := Remove(watchers[wk], c);
      hide Without, NoDup;
      watchers := watchers[wk := l];
      if |l| == 0 { watchers := watchers - {wk}; }
      clients := clients[c := clients[c].(watched := clients[c].watched[1..])];
    }

    /** `touchWatchedKey`: the list of the key tells whom to mark. */
    method TouchWatchedKey(k: WatchedKey)
      requires Valid()
      modifies this`clients
      ensures Now() == Signal(old(Now()), Touch(k))
    {
      ghost var s := Now();
      if k in watchers {
        var l := watchers[k];
        var i := 0;
        while i < |l|
          invariant i <= |l| && Touched(s, l[..i], clients)
        {
          assert WatchedBy(s, l[i], k) && Watches(s, l[i], k);
          assert l[..i + 1] == l[..i] + [l[i]];
          clients := clients[l[i] := clients[l[i]].(dirtyCas := true)];
          i := i + 1;
        }
        assert l[..i] == l;
      }
      TouchedAre(s, k);
      assert Now().clients == Signal(s, Touch(k)).clients;
    }

    /** `touchWatchedKeysOnFlush`: every client, every key it watches. */
    method TouchWatchedKeysOnFlush(db: Option<nat>, present: set<WatchedKey>)
      modifies this`clients
      ensures Now() == Signal(old(Now()), Flush(db, present))
    {
      ghost var s, e := Now(), Flush(db, present);
      var todo := clients.Keys;
      while todo != {}
        invariant todo <= s.clients.Keys == clients.Keys
        invariant forall c :: c in clients ==> clients[c] == if c in todo then s.clients[c] else Mark(s.clients[c], e)
        decreases |todo|
      {
        var c :| c in todo;
        todo := todo - {c};
        MarkOnFlush(c, db, present);
      }
      assert Now().clients == Signal(s, e).clients;
    }

    /** The inner loop: every key the client watches. */
    method MarkOnFlush(c: Id, db: Option<nat>, present: set<WatchedKey>)
      requires c in clients
      modifies this`clients
      ensures clients == old(clients)[c := Mark(old(clients)[c], Flush(db, present))]
    {
      ghost var cl, e := clients[c], Flush(db, present);
      var watched, i := clients[c].watched, 0;
      assert clients == clients[c := clients[c]];
      while i < |watched|
        invariant i <= |watched| && c in clients
        invariant clients == old(clients)[c := cl.(dirtyCas := clients[c].dirtyCas)]
        invariant clients[c].dirtyCas <==> cl.dirtyCas || exists j :: 0 <= j < i && Hits(e, watched[j])
      {
        var wk := watched[i];
        if db.None? || wk.db == db.value {
          if wk in present { clients := clients[c := clients[c].(dirtyCas := true)]; }
        }
        i := i + 1;
      }
    }

    /** The signals of a command. */
    method SignalEffects(es: seq<Effect>)
      requires Valid()
      modifies this`clients
      ensures Now() == SignalAll(old(Now()), es)
    {
      ghost var s := Now();
      var i := 0;
      assert es[..0] == [];
      while i < |es|
        invariant i <= |es| && Now() == SignalAll(s, es[..i])
      {
        SignalAllKeepsInv(s, es[..i]);
        assert es[..i + 1][..i] == es[..i];
        match es[i] {
          case Touch(k) => TouchWatchedKey(k);
          case Flush(db, present) => TouchWatchedKeysOnFlush(db, present);
        }
        i := i + 1;
      }
      assert es[..i] == es;
    }

    /** `call`: the procedure of a command that is neither of MULTI, EXEC, DISCARD and WATCH. */
    method Call(c: Id, cmd: Cmd, es: seq<Effect>)
      requires c in clients && Valid()
      modifies this
      ensures Now() == RunCmd(old(Now()), c, cmd, es)
    {
      match cmd {
        case Select(db) => clients := clients[c := clients[c].(db := db)];
        case Unwatch =>
          UnwatchAllKeys(c);
          clients := clients[c := clients[c].(dirtyCas := false)];
        case Other(_) => SignalEffects(es);
        case _ =>
      }
    }

    /** `discardTransaction`. */
    method Discard(c: Id)
      requires c in clients && Valid()
      modifies this
      ensures Now() == DiscardTransaction(old(Now()), c)
    {
      ghost var s := Now();
      clients := clients[c := clients[c].(queue := [], multi := false, dirtyCas := false, dirtyExec := false)];
      SameIndexKeepsInv(s, Now());
      UnwatchAllKeys(c);
    }

    /** `execCommand`. */
    method ExecCommand(c: Id, effects: seq<seq<Effect>>) returns (out: Outcome)
      requires c in clients && Valid()
      modifies this
      ensures (Now(), out) == Transactions.ExecCommand(old(Now()), c, effects)
    {
      var cl := clients[c];
      if !cl.multi { return Error; }
      if cl.dirtyCas || cl.dirtyExec {
        out := if cl.dirtyExec then ExecAbort else Nil;
        Discard(c);
        return;
      }
      UnwatchAllKeepsInv(Now(), c);
      UnwatchAllKeys(c);
      hide UnwatchAll, DiscardTransaction, RunQueue, Inv;
      var ran := RunQueued(c, cl.queue, effects);
      Discard(c);
      out := Executed(ran);
    }

    /** The loop of `execCommand`: the queued commands, in order. */
    method RunQueued(c: Id, queue: seq<Cmd>, effects: seq<seq<Effect>>) returns (ran: seq<Cmd>)
      requires c in clients && Valid()
      modifies this
      ensures Now() == RunQueue(old(Now()), c, queue, effects, |queue|) && ran == queue
      ensures c in clients && Valid()
    {
      hide RunCmd, Inv;
      ghost var s := Now();
      var j := 0;
      ran := [];
      while j < |queue|
        invariant j <= |queue| && ran == queue[..j] && c in clients && Valid()
        invariant Now() == RunQueue(s, c, queue, effects, j)
      {
        RunQueueKeepsInv(s, c, queue, effects, j + 1);
        Call(c, queue[j], EffectsAt(effects, j));
        ran := ran + [queue[j]];
        j := j + 1;
      }
    }

    /** `processCommand`. */
    method ProcessCommand(c: Id, cmd: Cmd, verdict: Verdict, effects: seq<seq<Effect>>) returns (out: Outcome)
      requires c in clients && Valid()
      modifies this
      ensures (Now(), out) == Process(old(Now()), c, cmd, verdict, effects) && Valid()
    {
      ProcessKeepsInv(Now(), c, cmd, verdict, effects);
      hide Inv, UnwatchAll, WatchFirst, RunQueue;
      if verdict.Refused? {
        assert clients == clients[c := clients[c]];
        if verdict.flags { FlagTransaction(c); }
        return Error;
      }
      var multi := clients[c].multi;
      if multi && !cmd.Exec? && !cmd.Discard? && !cmd.Multi? && !cmd.Watch? {
        clients := clients[c := clients[c].(queue := clients[c].queue + [cmd])];  // queueMultiCommand
        return Queued;
      }
      match cmd {
        case Multi =>
          if multi { return Error; }
          clients := clients[c := clients[c].(multi := true)];
          out := Done;
        case Exec => out := ExecCommand(c, effects);
        case Discard =>
          if !multi { return Error; }
          Discard(c);
          out := Done;
        case Watch(keys) => out := WatchCommand(c, keys);
        case _ =>
          Call(c, cmd, EffectsAt(effects, 0));
          out := Done;
      }
    }

    /** `flagTransaction`. */
    method FlagTransaction(c: Id)
      requires c in clients
      modifies this`clients
      ensures var cl := old(clients)[c]; clients == old(clients)[c := cl.(dirtyExec := cl.dirtyExec || cl.multi)]
    {
      if clients[c].multi { clients := clients[c := clients[c].(dirtyExec := true)]; }
    }

    /** One step: `createClient`, `freeClient`, a request, or a change made by the server itself. */
    method Take(op: Op) returns (out: Outcome)
      requires Valid()
      modifies this
      ensures (Now(), out) == Step(old(Now()), op) && Valid()
    {
      StepKeepsInv(Now(), op);
      hide Inv, UnwatchAll, Process;
      match op {
        case Connect(c) =>
          if c in clients { return Error; }
          clients := clients[c := NEW_CLIENT];
          out := Done;
        case Free(c) =>
          if c !in clients { return Error; }
          UnwatchAllKeys(c);
          clients := clients - {c};
          out := Done;
        case Request(c, cmd, verdict, effects) =>
          if c !in clients { return Error; }
          out := ProcessCommand(c, cmd, verdict, effects);
        case Background(e) =>
          match e {
            case Touch(k) => TouchWatchedKey(k);
            case Flush(db, present) => TouchWatchedKeysOnFlush(db, present);
          }
          out := Done;
      }
    }
  }

  /** Any run of the server, to which the theorems about `Run` then apply. */
  method Serve(ops: seq<Op>) returns (server: Server)
    ensures server.Now() == Run(ops) && Inv(server.Now())
  {
    server := new Server();
    assert ops[..0] == [];
    var i := 0;
    while i < |ops|
      invariant i <= |ops| && fresh(server) && server.Now() == Run(ops[..i]) && Inv(server.Now())
    {
      assert ops[..i + 1][..i] == ops[..i];
      hide Inv, Step;
      var out := server.Take(ops[i]);
      i := i + 1;
    }
    assert ops[..i] == ops;
  }

  lemma {:induction false} RemoveFirst(l: seq<Id>, c: Id, i: nat)
    requires i < |l| && l[i] == c && NoDup(l)
    ensures l[..i] + l[i + 1..] == Without(l, c)
  {
    if i == 0 {
      WithoutAbsent(l[1..], c);
    } else {
      RemoveFirst(l[1..], c, i - 1);
      assert l[..i] + l[i + 1..] == [l[0]] + (l[1..][..i - 1] + l[1..][i..]);
    }
  }

  /** The state of the loop of `unwatchAllKeys` after `n` keys. */
  ghost predicate Unwatching(s: State, c: Id, n: nat, t: State) {
    && Inv(s) && c in s.clients && n <= |s.clients[c].watched|
    && t.clients == s.clients[c := s.clients[c].(watched := s.clients[c].watched[n..])]
    && ListsLeft(s, c, n, t.watchers)
  }

  /** The same under a name that keeps what it says out of the proofs that only pass it on. */
  ghost predicate Underway(s: State, c: Id, n: nat, t: State) {
    Unwatching(s, c, n, t)
  }

  lemma UnwatchingStarts(s: State, c: Id)
    requires Inv(s) && c in s.clients
    ensures Underway(s, c, 0, s)
  {
    hide Inv;
    var w := s.clients[c].watched;
    assert w[0..] == w && w[..0] == [];
    assert s.clients == s.clients[c := s.clients[c].(watched := w)];
    assert forall k :: k in s.watchers ==> s.watchers[k] != [] by { NoEmptyList(s); }
  }

  lemma NoEmptyList(s: State)
    requires Inv(s)
    ensures forall k :: k in s.watchers ==> s.watchers[k] != []
  {
  }

  lemma UnwatchingLeft(s: State, c: Id, n: nat, t: State)
    requires Underway(s, c, n, t)
    ensures c in s.clients && c in t.clients && |t.clients[c].watched| == |s.clients[c].watched| - n
  {
    hide Inv, ListsLeft;
  }

  ghost predicate ListsLeft(s: State, c: Id, n: nat, w: map<WatchedKey, seq<Id>>)
    requires c in s.clients && n <= |s.clients[c].watched|
  {
    && (forall k :: k in w <==> k in s.watchers && Left(s, c, n, k) != [])
    && (forall k :: k in w ==> w[k] == Left(s, c, n, k))
  }

  ghost function Left(s: State, c: Id, n: nat, k: WatchedKey): seq<Id>
    requires k in s.watchers && c in s.clients && n <= |s.clients[c].watched|
  {
    if k in s.clients[c].watched[..n] then Without(s.watchers[k], c) else s.watchers[k]
  }

  /** One turn of the loop: the first key of the client's list. */
  ghost function TakenOut(t: State, c: Id): State
    requires c in t.clients && t.clients[c].watched != [] && t.clients[c].watched[0] in t.watchers
  {
    var k, l := t.clients[c].watched[0], t.clients[c].watched[1..];
    var r := Without(t.watchers[k], c);
    State(t.clients[c := t.clients[c].(watched := l)], Shortened(t.watchers, k, r))
  }

  /** The key with the shorter list, or without it when it is empty. */
  ghost function Shortened(w: map<WatchedKey, seq<Id>>, k: WatchedKey, r: seq<Id>): map<WatchedKey, seq<Id>> {
    if r == [] then w[k := r] - {k} else w[k := r]
  }

  lemma ShortenedAt(w: map<WatchedKey, seq<Id>>, k: WatchedKey, r: seq<Id>, k': WatchedKey)
    ensures k' in Shortened(w, k, r) <==> if k' == k then r != [] else k' in w
    ensures k' in Shortened(w, k, r) ==> Shortened(w, k, r)[k'] == if k' == k then r else w[k']
  {
  }

  /** The next key has a list, and the client is in it. */
  lemma UnwatchFirst(s: State, c: Id, n: nat, t: State)
    requires Underway(s, c, n, t) && n < |s.clients[c].watched|
    ensures c in t.clients && t.clients[c].watched != []
    ensures var k := t.clients[c].watched[0];
      && k == s.clients[c].watched[n] && k in t.watchers && t.watchers[k] == s.watchers[k]
      && c in t.watchers[k] && NoDup(t.watchers[k]) && k !in s.clients[c].watched[..n]
  {
    var k := s.clients[c].watched[n];
    assert Watches(s, c, k) && WatchedBy(s, c, k);
    assert k !in s.clients[c].watched[..n];
    assert s.clients[c].watched[n..][0] == k;
  }

  lemma UnwatchNext(s: State, c: Id, n: nat, t: State)
    requires Underway(s, c, n, t) && n < |s.clients[c].watched|
    requires t.clients[c].watched != [] && t.clients[c].watched[0] in t.watchers
    ensures Underway(s, c, n + 1, TakenOut(t, c))
  {
    UnwatchFirst(s, c, n, t);
    ListsNext(s, c, n, t.watchers);
    var w := s.clients[c].watched;
    assert w[n..][1..] == w[n + 1..];
    hide *;
    UpdatedTwice(s.clients, c, s.clients[c].(watched := w[n..]), s.clients[c].(watched := w[n + 1..]));
    NextIs(s, c, n, t);
  }

  lemma NextIs(s: State, c: Id, n: nat, t: State)
    requires Inv(s) && c in s.clients && n < |s.clients[c].watched| && c in t.clients
    requires t.clients[c].watched != [] && t.clients[c].watched[0] in t.watchers
    requires t.clients[c := t.clients[c].(watched := t.clients[c].watched[1..])]
          == s.clients[c := s.clients[c].(watched := s.clients[c].watched[n + 1..])]
    requires ListsLeft(s, c, n + 1, Shortened(t.watchers, t.clients[c].watched[0],
                                              Without(t.watchers[t.clients[c].watched[0]], c)))
    ensures Underway(s, c, n + 1, TakenOut(t, c))
  {
    hide Inv, ListsLeft, Shortened, Without;
  }

  lemma UpdatedTwice<K, V>(m: map<K, V>, k: K, v: V, w: V)
    ensures m[k := v][k := w] == m[k := w]
  {
  }

  lemma ListsNext(s: State, c: Id, n: nat, w: map<WatchedKey, seq<Id>>)
    requires c in s.clients && n < |s.clients[c].watched| && ListsLeft(s, c, n, w)
    requires s.clients[c].watched[n] in w && w[s.clients[c].watched[n]] == s.watchers[s.clients[c].watched[n]]
    ensures ListsLeft(s, c, n + 1, Shortened(w, s.clients[c].watched[n], Without(w[s.clients[c].watched[n]], c)))
  {
    var k0 := s.clients[c].watched[n];
    forall k
      ensures k in Shortened(w, k0, Without(w[k0], c)) <==> k in s.watchers && Left(s, c, n + 1, k) != []
      ensures k in Shortened(w, k0, Without(w[k0], c))
          ==> Shortened(w, k0, Without(w[k0], c))[k] == Left(s, c, n + 1, k)
    {
      if k in s.watchers { LeftNext(s, c, n, k); }
      ShortenedAt(w, k0, Without(w[k0], c), k);
      hide Left, Without, Shortened;
    }
    hide Left, Without, Shortened;
  }

  lemma LeftNext(s: State, c: Id, n: nat, k: WatchedKey)
    requires c in s.clients && n < |s.clients[c].watched| && k in s.watchers
    ensures Left(s, c, n + 1, k) == if k == s.clients[c].watched[n] then Without(s.watchers[k], c) else Left(s, c, n, k)
  {
    hide Without;
    var w := s.clients[c].watched;
    assert w[..n + 1] == w[..n] + [w[n]];
  }

  lemma UnwatchedAll(s: State, c: Id, t: State)
    requires c in s.clients && Underway(s, c, |s.clients[c].watched|, t)
    ensures t == UnwatchAll(s, c)
  {
    var w, r := s.clients[c].watched, UnwatchAll(s, c);
    assert w[..|w|] == w && w[|w|..] == [];
    forall k | k in s.watchers ensures Left(s, c, |w|, k) == Without(s.watchers[k], c) {
      if k !in w {
        assert !Watches(s, c, k);
        assert !WatchedBy(s, c, k);
        WithoutAbsent(s.watchers[k], c);
      }
    }
    assert t.watchers == r.watchers;
  }

  /** The clients in the part of the list gone through have the flag up. */
  ghost predicate Touched(s: State, l: seq<Id>, clients: map<Id, Client>) {
    && clients.Keys == s.clients.Keys
    && forall c :: c in clients ==> clients[c] == if c in l then s.clients[c].(dirtyCas := true) else s.clients[c]
  }

  lemma TouchedAre(s: State, k: WatchedKey)
    requires Inv(s)
    ensures forall c :: c in s.clients ==> (Marks(Touch(k), s.clients[c]) <==> k in s.watchers && c in s.watchers[k])
  {
    forall c | c in s.clients ensures Marks(Touch(k), s.clients[c]) <==> WatchedBy(s, c, k) {
      assert Watches(s, c, k) <==> WatchedBy(s, c, k);
    }
  }
}
