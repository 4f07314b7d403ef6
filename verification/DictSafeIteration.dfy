/** Whole iterations: a safe iterator returns every entry that stays, exactly once, whatever lookups,
    insertions, replacements and deletions happen between its steps. */
module DictSafeIteration {
  import opened Bytes
  import opened DictSpec
  import opened DictProofs
  import opened DictIteration
  import opened DictRehashIteration

  /** What can happen between the first `dictNext` and the release of the iterator: its own steps,
      operations on the dictionary, and other safe iterators beginning and ending. */
  datatype Event = Advance | Operate(op: Op) | OtherBegins | OtherEnds

  datatype Progress = Progress(s: State, it: Iter, returned: seq<Key>)

  ghost predicate Good(hash: Key -> nat, p: Progress) {
    Inv(hash, p.s) && ItOk(p.s, p.it) && p.it.safe && Started(p.it)
  }

  /** A user must not delete the entry the iterator saved as next (the one it returned last may be
      deleted), nor call `dictRehash`, which moves buckets without asking for iterators, where that would
      harm this one. An iterator that ends is not this one. */
  ghost predicate Allowed(hash: Key -> nat, p: Progress, e: Event)
    requires Good(hash, p)
  {
    match e
    case Operate(DoDelete(k)) => !(p.it.entry.Some? && p.it.nextEntry == Some(k))
    case Operate(DoRehash(n)) => SparedBy(hash, p.s, p.it, n)
    case OtherEnds => p.s.iterators >= 2
    case _ => true
  }

  ghost function Happen(hash: Key -> nat, p: Progress, e: Event): Progress
    requires Good(hash, p)
  {
    match e
    case Advance =>
      var (s, it, r) := Next(hash, p.s, p.it);
      Progress(s, it, p.returned + if r.Some? then [r.value] else [])
    case Operate(op) => p.(s := Step(hash, p.s, op).0)
    case OtherBegins => p.(s := p.s.(iterators := p.s.iterators + 1))
    case OtherEnds => p.(s := p.s.(iterators := p.s.iterators - 1))
  }

  function Count(ks: seq<Key>, k: Key): nat {
    multiset(ks)[k]
  }

  /** How often the iterator has returned `k`, plus one if it has still to. */
  ghost function Owed(hash: Key -> nat, p: Progress, k: Key): nat {
    Count(p.returned, k) + if Ahead(hash, p.s, p.it, k) then 1 else 0
  }

  lemma AdvanceOwes(hash: Key -> nat, p: Progress, k: Key)
    requires Good(hash, p)
    ensures var p' := Happen(hash, p, Advance);
            Good(hash, p') && Owed(hash, p', k) == Owed(hash, p, k)
            && forall k' :: Get(hash, p'.s, k') == Get(hash, p.s, k')
  {
    NextOk(hash, p.s, p.it, k);
    var (s, it, r) := Next(hash, p.s, p.it);
    if r.Some? {
      assert multiset(p.returned + [r.value]) == multiset(p.returned) + multiset{r.value};
      if r.value != k { assert Count(p.returned + [r.value], k) == Count(p.returned, k); }
    } else {
      assert p.returned + [] == p.returned;
    }
  }

  /** The states before and after an operation, for an iterator that is under way. */
  lemma OperationUndisturbed(hash: Key -> nat, s: State, op: Op) returns (except: Option<Key>)
    requires Inv(hash, s) && s.iterators > 0 && |s.ht0.buckets| > 0 && !op.DoRehash?
    ensures Undisturbed(hash, s, Step(hash, s, op).0, except)
    ensures except.Some? ==> (op.DoDelete? && except == Some(op.key)) || Get(hash, s, except.value).None?
  {
    SameOrderRefl(s.ht0.buckets, None);
    SameOrderRefl(s.ht1.buckets, None);
    match op {
      case DoFind(k) => except := None;
      case DoAdd(k, v, c) =>
        AddOk(hash, s, k, v, c);
        AddUndisturbed(hash, s, k, v, c);
        except := if Add(hash, s, k, v, c).1 then Some(k) else None;
      case DoReplace(k, v, c) =>
        AddOk(hash, s, k, v, c);
        AddUndisturbed(hash, s, k, v, c);
        var (s1, added) := Add(hash, s, k, v, c);
        except := if added then Some(k) else None;
        if !added {
          AssignUndisturbed(hash, s1, k, v);
          UndisturbedTrans(hash, s, s1, Assign(hash, s1, k, v));
        }
      case DoDelete(k) =>
        UnlinkUndisturbed(hash, s, k);
        except := Some(k);
      case DoExpand(size) =>
        ExpandUndisturbed(hash, s, size);
        except := None;
      case DoResize(c) =>
        ExpandUndisturbed(hash, s, if s.ht0.used < INITIAL_SIZE then INITIAL_SIZE else s.ht0.used);
        except := None;
    }
  }

  lemma SameOrderTrans(t: seq<Chain>, t1: seq<Chain>, t2: seq<Chain>, except: Option<Key>)
    requires SameOrder(t, t1, except) && SameOrder(t1, t2, except)
    ensures SameOrder(t, t2, except)
  {
    hide FromKey, InChain;
    forall i, n, k | 0 <= i < |t| && Some(n) != except && Some(k) != except && InChain(t[i], n)
      ensures (FromKey(t2[i], n, k) <==> FromKey(t[i], n, k)) && InChain(t2[i], n)
    {
      assert FromKey(t1[i], n, k) <==> FromKey(t[i], n, k);
    }
  }

  lemma UndisturbedTrans(hash: Key -> nat, s: State, s1: State, s2: State)
    requires Undisturbed(hash, s, s1, None) && Undisturbed(hash, s1, s2, None)
    ensures Undisturbed(hash, s, s2, None)
  {
    SameOrderTrans(s.ht0.buckets, s1.ht0.buckets, s2.ht0.buckets, None);
    if s.Rehashing() { SameOrderTrans(s.ht1.buckets, s1.ht1.buckets, s2.ht1.buckets, None); }
    hide SameOrder, InTable;
  }

  lemma IteratorsOnly(hash: Key -> nat, p: Progress, n: int, k: Key)
    requires Good(hash, p) && n >= 1
    ensures var p' := p.(s := p.s.(iterators := n)); Good(hash, p') && Owed(hash, p', k) == Owed(hash, p, k)
  {
  }

  /** Every event keeps the iterator good, and what it owes for a key that stays. */
  lemma HappenOwes(hash: Key -> nat, p: Progress, e: Event, k: Key)
    requires Good(hash, p) && Allowed(hash, p, e)
    ensures Good(hash, Happen(hash, p, e))
    ensures Get(hash, p.s, k).Some? && e != Operate(DoDelete(k)) ==>
              && Get(hash, Happen(hash, p, e).s, k).Some?
              && Owed(hash, Happen(hash, p, e), k) == Owed(hash, p, k)
  {
    match e {
      case Advance => AdvanceOwes(hash, p, k);
      case OtherBegins => IteratorsOnly(hash, p, p.s.iterators + 1, k);
      case OtherEnds => IteratorsOnly(hash, p, p.s.iterators - 1, k);
      case Operate(op) => OperateOwes(hash, p, op, k);
    }
  }

  lemma OperateOwes(hash: Key -> nat, p: Progress, op: Op, k: Key)
    requires Good(hash, p) && Allowed(hash, p, Operate(op))
    ensures var p' := Happen(hash, p, Operate(op));
            && Good(hash, p')
            && (Get(hash, p.s, k).Some? && op != DoDelete(k) ==>
                  Get(hash, p'.s, k).Some? && Owed(hash, p', k) == Owed(hash, p, k))
  {
    StepKeepsInv(hash, p.s, op);
    StepKeepsKey(hash, p.s, op, k);
    if op.DoRehash? {
      SparedAhead(hash, p.s, p.it, op.n, k);
    } else if |p.s.ht0.buckets| > 0 {
      var except := OperationUndisturbed(hash, p.s, op);
      NextIsPresent(hash, p);
      var other := if except.Some? then except.value + 1 else k;
      UndisturbedAhead(hash, p.s, Step(hash, p.s, op).0, except, p.it, if Some(k) == except then other else k);
    }
  }

  lemma NextIsPresent(hash: Key -> nat, p: Progress)
    requires Good(hash, p)
    ensures p.it.entry.Some? && p.it.nextEntry.Some? ==> Get(hash, p.s, p.it.nextEntry.value).Some?
  {
    if p.it.entry.Some? && p.it.nextEntry.Some? {
      InBucketInTable(hash, BucketsOf(p.s, p.it.table), p.it.index, p.it.nextEntry.value);
    }
  }

  lemma StepKeepsKey(hash: Key -> nat, s: State, op: Op, k: Key)
    requires Inv(hash, s)
    ensures Get(hash, s, k).Some? && op != DoDelete(k) ==> Get(hash, Step(hash, s, op).0, k).Some?
  {
    match op
    case DoFind(k') => FindOk(hash, s, k');
    case DoAdd(k', v, c) => AddOk(hash, s, k', v, c);
    case DoReplace(k', v, c) => ReplaceOk(hash, s, k', v, c);
    case DoDelete(k') => DeleteOk(hash, s, k');
    case DoExpand(size) => ExpandOk(hash, s, size);
    case DoResize(c) => ResizeOk(hash, s, c);
    case DoRehash(n) => RehashCompletes(hash, s, n);
  }

  ghost predicate Legal(hash: Key -> nat, p: Progress, es: seq<Event>)
    requires Good(hash, p)
    decreases |es|
  {
    es == [] || (Allowed(hash, p, es[0])
      && (HappenOwes(hash, p, es[0], 0); Legal(hash, Happen(hash, p, es[0]), es[1..])))
  }

  ghost function Iterate(hash: Key -> nat, p: Progress, es: seq<Event>): Progress
    requires Good(hash, p) && Legal(hash, p, es)
    decreases |es|
  {
    if es == [] then p
    else
      HappenOwes(hash, p, es[0], 0);
      Iterate(hash, Happen(hash, p, es[0]), es[1..])
  }

  lemma {:induction false} IterateOwes(hash: Key -> nat, p: Progress, es: seq<Event>, k: Key)
    requires Good(hash, p) && Legal(hash, p, es)
    requires Get(hash, p.s, k).Some? && Operate(DoDelete(k)) !in es
    ensures var p' := Iterate(hash, p, es); Good(hash, p') && Owed(hash, p', k) == Owed(hash, p, k)
    decreases |es|
  {
    if es != [] {
      HappenOwes(hash, p, es[0], k);
      IterateOwes(hash, Happen(hash, p, es[0]), es[1..], k);
    }
  }

  /** The state just after `dictGetSafeIterator` and the first `dictNext`. */
  ghost function Begin(hash: Key -> nat, s: State): (p: Progress)
    requires Inv(hash, s)
    ensures Good(hash, p)
  {
    NextOk(hash, s, FRESH, 0);
    var (s', it, r) := Next(hash, s, FRESH);
    Progress(s', it, if r.Some? then [r.value] else [])
  }

  lemma FreshAhead(hash: Key -> nat, s: State, k: Key)
    ensures Ahead(hash, s, FRESH, k) <==> Get(hash, s, k).Some?
  {
  }

  lemma BeginOwes(hash: Key -> nat, s: State, k: Key)
    requires Inv(hash, s)
    ensures forall k' :: Get(hash, Begin(hash, s).s, k') == Get(hash, s, k')
    ensures Owed(hash, Begin(hash, s), k) == if Get(hash, s, k).Some? then 1 else 0
  {
    NextOk(hash, s, FRESH, k);
    FreshAhead(hash, s, k);
    hide Ahead, Inv, InTable, TableGet, Next;
    var (s', it, r) := Next(hash, s, FRESH);
    if r.Some? { assert multiset([r.value]) == multiset{r.value}; }
  }

  /** Every entry that is there when the iteration begins and is not deleted before it ends has been
      returned at most once at any time, and exactly once when `dictNext` returns nothing. */
  lemma SafeIteration(hash: Key -> nat, s: State, es: seq<Event>, k: Key)
    requires Inv(hash, s) && Get(hash, s, k).Some?
    requires Legal(hash, Begin(hash, s), es)
    requires Operate(DoDelete(k)) !in es
    ensures var p := Iterate(hash, Begin(hash, s), es);
            && Good(hash, p) && Count(p.returned, k) <= 1
            && (Next(hash, p.s, p.it).2.None? ==> Count(p.returned, k) == 1)
  {
    BeginOwes(hash, s, k);
    IterateOwes(hash, Begin(hash, s), es, k);
    var p := Iterate(hash, Begin(hash, s), es);
    NextOk(hash, p.s, p.it, k);
  }

  /** The entry returned last is never the one saved as next: deleting it is always allowed. */
  lemma DeletingReturnedIsAllowed(hash: Key -> nat, p: Progress)
    requires Good(hash, p) && Next(hash, p.s, p.it).2.Some?
    ensures var p' := Happen(hash, p, Advance);
            Good(hash, p') && |p'.returned| > 0 && Allowed(hash, p', Operate(DoDelete(p'.returned[|p'.returned| - 1])))
  {
    NextOk(hash, p.s, p.it, 0);
  }

  // ---- what happens to the dictionary meanwhile

  /** The operations among the events. */
  function Operations(es: seq<Event>): seq<Op> {
    if es == [] then [] else (if es[0].Operate? then [es[0].op] else []) + Operations(es[1..])
  }

  /** How many more other iterators have begun than ended. */
  function Others(es: seq<Event>): int {
    if es == [] then 0
    else (if es[0].OtherBegins? then 1 else if es[0].OtherEnds? then -1 else 0) + Others(es[1..])
  }

  lemma AdvanceRefines(hash: Key -> nat, p: Progress, m: map<Key, Val>)
    requires Good(hash, p) && Represents(hash, p.s, m)
    ensures var s := Happen(hash, p, Advance).s; Represents(hash, s, m) && s.iterators == p.s.iterators
  {
    AdvanceOwes(hash, p, 0);
    NextOk(hash, p.s, p.it, 0);
    hide Next, Get, Good, Owed, Ahead, Inv, ItOk;
  }

  lemma HappenRefines(hash: Key -> nat, p: Progress, e: Event, m: map<Key, Val>)
    requires Good(hash, p) && Represents(hash, p.s, m)
    ensures var s := Happen(hash, p, e).s;
      && Represents(hash, s, if e.Operate? then MapStep(m, e.op).0 else m)
      && s.iterators == p.s.iterators + if e.OtherBegins? then 1 else if e.OtherEnds? then -1 else 0
  {
    match e
    case Advance => AdvanceRefines(hash, p, m);
    case Operate(op) =>
      StepRefines(hash, p.s, op, m);
      hide Represents, Step, Inv, ItOk;
    case _ =>
      hide Inv, ItOk;
      assert forall k, n :: Get(hash, p.s.(iterators := n), k) == Get(hash, p.s, k);
  }

  /** An iteration changes nothing: the dictionary stands for the map that the operations among the events
      make of it, and the iterators that are alive are those that have begun and not ended. */
  lemma {:induction false} IterationRefines(hash: Key -> nat, p: Progress, es: seq<Event>, m: map<Key, Val>)
    requires Good(hash, p) && Legal(hash, p, es) && Represents(hash, p.s, m)
    ensures var s := Iterate(hash, p, es).s;
      && Represents(hash, s, MapRun(m, Operations(es)).0) && s.iterators == p.s.iterators + Others(es)
    decreases |es|
  {
    if es != [] {
      var m' := if es[0].Operate? then MapStep(m, es[0].op).0 else m;
      HappenOwes(hash, p, es[0], 0);
      HappenRefines(hash, p, es[0], m);
      IterationRefines(hash, Happen(hash, p, es[0]), es[1..], m');
      hide Represents, Happen, Good, MapStep;
      if es[0].Operate? { assert Operations(es)[1..] == Operations(es[1..]); }
      assert [] + Operations(es[1..]) == Operations(es[1..]);
    }
  }

  // ---- what a `dictRehash` that is not allowed does to an iteration


  const FIVE := Entry(5, 0)
  const EIGHT: seq<Chain> := [[], [], [], [], [], [], [], []]

  /** The hash function that names a key by itself. */
  function Itself(k: Key): nat {
    if k < 0 then 0 else k
  }

  /** One key in a table of four buckets, and a table of eight that it is to move to. */
  const FOUR: seq<Chain> := [[], [FIVE], [], []]
  const GROWN := State(Table(FOUR, 1), Table(EIGHT, 0), 0, 0)

  /** A safe iterator has returned it. */
  const RETURNED := Progress(GROWN.(iterators := 1), Iter(0, 1, true, Some(5), None), [5])

  const REHASHED := State(Table(EIGHT[5 := [FIVE]], 1), NO_TABLE, -1, 1)

  lemma FourIsOk()
    ensures TableOk(Itself, FOUR) && Total(FOUR) == 1
  {
    var t := FOUR;
    assert IsPow2(2) && IsPow2(4);
    var t1: seq<Chain> := [[FIVE], [], []];
    var t2: seq<Chain> := [[], []];
    assert t[1..] == t1 && t1[1..] == t2;
    TotalEmpty(t2);
    assert Total(t1) == 1;
  }

  lemma EightIsOk()
    ensures TableOk(Itself, EIGHT) && Total(EIGHT) == 0 && forall k :: !InTable(Itself, EIGHT, k)
  {
    assert IsPow2(2) && IsPow2(4) && IsPow2(8);
    TotalEmpty(EIGHT);
    EmptyTableHasNone(Itself, EIGHT);
  }

  lemma ReturnedIsGood()
    ensures Good(Itself, RETURNED) && Inv(Itself, GROWN)
  {
    FourIsOk();
    EightIsOk();
    hide TableOk, Total, InTable;
  }

  lemma MoveFive()
    ensures MoveChain(Itself, [FIVE], EIGHT) == EIGHT[5 := [FIVE]]
  {
    var c: Chain := [FIVE];
    assert c[1..] == [] && [FIVE] + EIGHT[5] == c;
    assert Slot(Itself, 5, |EIGHT|) == 5;
    assert MoveChain(Itself, c[1..], EIGHT[5 := c]) == EIGHT[5 := c];
  }

  lemma RehashIs()
    requires Good(Itself, RETURNED)
    ensures Rehash(Itself, RETURNED.s, 3) == REHASHED
  {
    var s := RETURNED.s;
    FirstTurnIs();
    RehashOneOk(Itself, s);
    RehashOneOk(Itself, MOVED);
    hide Inv, RehashOne;
    assert Rehash(Itself, REHASHED, 1) == REHASHED;
    assert Rehash(Itself, MOVED, 2) == Rehash(Itself, REHASHED, 1);
  }

  const MOVED := State(Table([[], [], [], []], 0), Table(EIGHT[5 := [FIVE]], 1), 2, 1)

  lemma FirstTurnIs()
    ensures RehashOne(Itself, RETURNED.s) == MOVED && RehashOne(Itself, MOVED) == REHASHED
  {
    assert FirstUsed(FOUR, 0) == 1 by { assert FOUR[0] == [] && FOUR[1] != []; }
    MoveFive();
    assert FOUR[1 := []] == [[], [], [], []];
    hide MoveChain;
  }

  /** A dictionary grows to this from nothing: one key is added, and a larger table asked for. */
  lemma GrownIsReached()
    ensures Inv(Itself, EMPTY)
    ensures Run(Itself, EMPTY, [DoAdd(5, 0, true), DoExpand(8)]).0 == GROWN
  {
    var ops: seq<Op> := [DoAdd(5, 0, true), DoExpand(8)];
    var last: seq<Op> := [DoExpand(8)];
    assert ops[1..] == last && last[1..] == [];
    var one := State(Table(FOUR, 1), NO_TABLE, -1, 0);
    AddedFive();
    StepKeepsInv(Itself, EMPTY, ops[0]);
    assert NextPower(8) == 8 && NewTable(8).buckets == EIGHT;
    assert Step(Itself, one, DoExpand(8)).0 == GROWN;
    StepKeepsInv(Itself, one, DoExpand(8));
    hide Inv, Expand;
    assert Run(Itself, one, last).0 == Run(Itself, GROWN, []).0;
    assert Run(Itself, EMPTY, ops).0 == Run(Itself, one, last).0;
  }

  lemma AddedFive()
    ensures Inv(Itself, EMPTY)
    ensures Step(Itself, EMPTY, DoAdd(5, 0, true)).0 == State(Table(FOUR, 1), NO_TABLE, -1, 0)
  {
    var four := NewTable(4);
    assert NextPower(INITIAL_SIZE) == 4;
    assert ExpandIfNeeded(MaybeStep(Itself, EMPTY), true) == EMPTY.(ht0 := four);
    assert four.buckets[1 := [FIVE]] == FOUR && [FIVE] + [] == [FIVE];
    assert Slot(Itself, 5, 4) == 1;
    assert Prepend(Itself, four, FIVE) == Table(FOUR, 1);
  }

  lemma BeginReturns()
    requires Inv(Itself, GROWN)
    ensures Begin(Itself, GROWN) == RETURNED
  {
    assert ItOk(GROWN, FRESH);
    PointerNextIsNext(Itself, GROWN, FRESH);
    assert NextUsed(FOUR, 0) == 1 by { assert FOUR[0] == [] && FOUR[1] != []; }
    assert FOUR[1][1..] == [];
    assert PointerNext(Itself, GROWN, FRESH) == (RETURNED.it, Some(5));
    hide Inv, Next;
  }

  /** The last clause of `Allowed` is needed: an iterator over a dictionary that began empty has returned
      its one key; after a `dictRehash` that is not allowed it returns it again. */
  lemma RehashReturnsTwice()
    ensures Inv(Itself, EMPTY)
    ensures var s := Run(Itself, EMPTY, [DoAdd(5, 0, true), DoExpand(8)]).0;
      Inv(Itself, s) && Begin(Itself, s) == RETURNED
    ensures Good(Itself, RETURNED) && !Allowed(Itself, RETURNED, Operate(DoRehash(3)))
    ensures var s := Rehash(Itself, RETURNED.s, 3);
      Inv(Itself, s) && ItOk(s, RETURNED.it) && Next(Itself, s, RETURNED.it).2 == Some(5)
  {
    GrownIsReached();
    ReturnedIsGood();
    BeginReturns();
    RehashIs();
    NotSpared();
    hide Inv, Rehash, Run, Begin, Good;
    PointerNextIsNext(Itself, REHASHED, RETURNED.it);
    var t := REHASHED.ht0.buckets;
    assert t[5] != [];
    assert NextUsed(t, 2) == 5;
    hide Next;
  }

  lemma NotSpared()
    requires Good(Itself, RETURNED)
    ensures !Allowed(Itself, RETURNED, Operate(DoRehash(3)))
  {
    var s := RETURNED.s;
    assert FirstUsed(s.ht0.buckets, 0) == 1;
    assert !Harmless(Itself, s, RETURNED.it);
  }
}
