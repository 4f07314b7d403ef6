/** dict.c, what `dictRehash` does to an iteration. It moves entries that an iterator points to, so entry
    pointers are followed here to wherever their entries are. */
module DictRehashIteration {
  import opened Bytes
  import opened DictSpec
  import opened DictProofs
  import opened DictIteration

  // ---- `dictNext` with pointers

  /** The chain that holds the entry of the key now. */
  function Holder(hash: Key -> nat, s: State, n: Key): Chain {
    var t := if InTable(hash, s.ht0.buckets, n) then s.ht0.buckets else s.ht1.buckets;
    if |t| == 0 then [] else t[Slot(hash, n, |t|)]
  }

  /** All that following pointers needs: the entry saved as next has not been freed. */
  ghost predicate Followable(hash: Key -> nat, s: State, it: Iter) {
    && (it.table == 0 || it.table == 1) && it.index >= -1
    && (it.entry.Some? && it.nextEntry.Some? ==> Get(hash, s, it.nextEntry.value).Some?)
  }

  /** The first bucket in use from `i` on, or where the scan for one ends. */
  function NextUsed(t: seq<Chain>, i: nat): (j: nat)
    ensures i <= j && (i <= |t| ==> j <= |t|)
    ensures j < |t| ==> t[j] != []
    ensures forall m :: i <= m < j && m < |t| ==> t[m] == []
  {
    if i < |t| then FirstUsed(t, i) else i
  }

  /** Entering bucket `j` of a table, or the end when there is none. */
  function EnterAt(t: seq<Chain>, it: Iter, j: nat): (Iter, Option<Key>) {
    if j < |t| && t[j] != []
    then (it.(index := j, entry := Some(t[j][0].key), nextEntry := Succ(t[j], t[j][0].key)), Some(t[j][0].key))
    else (it.(index := j, entry := None), None)
  }

  /** `dictNext`: the iterator afterwards and the key of the entry returned. */
  function PointerNext(hash: Key -> nat, s: State, it: Iter): (Iter, Option<Key>)
    requires it.index >= -1
  {
    if it.entry.Some? && it.nextEntry.Some? then
      var n := it.nextEntry.value;
      (it.(entry := Some(n), nextEntry := Succ(Holder(hash, s, n), n)), Some(n))
    else
      var t := BucketsOf(s, it.table);
      var j := NextUsed(t, it.index + 1);
      if j >= |t| && s.Rehashing() && it.table == 0
      then EnterAt(s.ht1.buckets, it.(table := 1), NextUsed(s.ht1.buckets, 0))
      else EnterAt(t, it, j)
  }

  lemma HolderIs(hash: Key -> nat, s: State, it: Iter, n: Key)
    requires Inv(hash, s) && ItOk(s, it) && it.entry.Some? && it.nextEntry == Some(n)
    ensures Holder(hash, s, n) == BucketsOf(s, it.table)[it.index]
    ensures InTable(hash, BucketsOf(s, it.table), n) && Slot(hash, n, |BucketsOf(s, it.table)|) == it.index
  {
    InBucketInTable(hash, BucketsOf(s, it.table), it.index, n);
  }

  /** While no bucket moves, it is the `dictNext` of `DictIteration`. */
  lemma {:induction false} PointerNextIsNext(hash: Key -> nat, s: State, it: Iter)
    requires Inv(hash, s) && ItOk(s, it)
    ensures Next(hash, s, it) == (Counted(s, it), PointerNext(hash, s, it).0, PointerNext(hash, s, it).1)
    decreases 1 - it.table, |BucketsOf(s, it.table)| - it.index, if it.entry.Some? then 1 else 0
  {
    if it.entry.Some? {
      assert Counted(s, it) == s;
      match it.nextEntry
      case Some(n) => HolderIs(hash, s, it, n);
      case None =>
        assert Counted(s, it.(entry := None)) == s;
        PointerNextIsNext(hash, s, it.(entry := None));
        hide Inv, NextUsed;
    } else {
      PointerEnters(hash, s, it);
    }
  }

  lemma {:induction false} PointerEnters(hash: Key -> nat, s: State, it: Iter)
    requires Inv(hash, s) && ItOk(s, it) && it.entry.None?
    ensures Next(hash, s, it) == (Counted(s, it), PointerNext(hash, s, it).0, PointerNext(hash, s, it).1)
    decreases 1 - it.table, |BucketsOf(s, it.table)| - it.index, 0, 0
  {
    var s1, it1 := Counted(s, it), it.(index := it.index + 1);
    EnterUnfolds(hash, s, it);
    assert it1.index >= |BucketsOf(s, it.table)| ==> NextUsed(BucketsOf(s, it.table), it1.index) == it1.index;
    hide Inv, Next, NextUsed, Bucket, ItOk, Counted;
    if it1.index < |BucketsOf(s, it.table)| {
      PointerBucket(hash, s1, it1);
      EnterAnywhere(BucketsOf(s, it.table), it, it1, NextUsed(BucketsOf(s, it.table), it1.index));
    } else if s.Rehashing() && it.table == 0 {
      PointerBucket(hash, s1, it1.(table := 1, index := 0));
    }
  }

  lemma EnterAnywhere(t: seq<Chain>, it: Iter, it1: Iter, j: nat)
    requires it1 == it.(index := it1.index)
    ensures EnterAt(t, it1, j) == EnterAt(t, it, j)
    ensures forall table :: EnterAt(t, it1.(table := table), j) == EnterAt(t, it.(table := table), j)
  {
  }

  lemma {:induction false} PointerBucket(hash: Key -> nat, s: State, it: Iter)
    requires Inv(hash, s) && ItOk(s, it) && 0 <= it.index < |BucketsOf(s, it.table)| && Started(it)
    requires it.entry.None?
    ensures var t := BucketsOf(s, it.table);
      var j := NextUsed(t, it.index);
      var (it', r) := if j >= |t| && s.Rehashing() && it.table == 0
                      then EnterAt(s.ht1.buckets, it.(table := 1), NextUsed(s.ht1.buckets, 0))
                      else EnterAt(t, it, j);
      Bucket(hash, s, it) == (s, it', r)
    decreases 1 - it.table, |BucketsOf(s, it.table)| - it.index, 1
  {
    hide Inv;
    if BucketsOf(s, it.table)[it.index] == [] {
      assert it.(entry := None) == it;
      PointerNextIsNext(hash, s, it);
    }
  }

  // ---- how often a key is still to come

  ghost predicate Later(hash: Key -> nat, t: seq<Chain>, i: int, k: Key) {
    InTable(hash, t, k) && Slot(hash, k, |t|) > i
  }

  ghost predicate Saved(hash: Key -> nat, s: State, it: Iter, k: Key) {
    && it.entry.Some? && it.nextEntry.Some?
    && FromKey(Holder(hash, s, it.nextEntry.value), it.nextEntry.value, k)
  }

  ghost predicate Second(hash: Key -> nat, s: State, it: Iter, k: Key) {
    it.table == 0 && s.Rehashing() && InTable(hash, s.ht1.buckets, k)
  }

  function One(b: bool): nat {
    if b then 1 else 0
  }

  /** From the saved entry on, in the buckets to come, and in the second table. */
  ghost function Comes(hash: Key -> nat, s: State, it: Iter, k: Key): nat {
    One(Saved(hash, s, it, k)) + One(Later(hash, BucketsOf(s, it.table), it.index, k)) + One(Second(hash, s, it, k))
  }

  lemma HolderOf(hash: Key -> nat, s: State, t: seq<Chain>, i: nat, n: Key)
    requires Inv(hash, s) && (t == s.ht0.buckets || t == s.ht1.buckets) && i < |t| && InChain(t[i], n)
    ensures Holder(hash, s, n) == t[i] && Get(hash, s, n).Some? && Slot(hash, n, |t|) == i && InTable(hash, t, n)
  {
    InBucketInTable(hash, t, i, n);
  }

  lemma HeldSomewhere(hash: Key -> nat, s: State, n: Key) returns (t: seq<Chain>, i: nat)
    requires Inv(hash, s) && Get(hash, s, n).Some?
    ensures (t == s.ht0.buckets || t == s.ht1.buckets) && i < |t| && t[i] == Holder(hash, s, n) && InChain(t[i], n)
    ensures forall j, j' :: 0 <= j < j' < |t[i]| ==> t[i][j].key != t[i][j'].key
  {
    t := if InTable(hash, s.ht0.buckets, n) then s.ht0.buckets else s.ht1.buckets;
    i := Slot(hash, n, |t|);
    assert ChainOk(hash, t[i], i, |t|);
  }

  /** The saved entry is returned, and its successor saved. */
  lemma FollowComes(hash: Key -> nat, s: State, it: Iter, n: Key, k: Key)
    requires Inv(hash, s) && Followable(hash, s, it) && it.entry.Some? && it.nextEntry == Some(n)
    ensures var it' := PointerNext(hash, s, it).0;
      Followable(hash, s, it') && Comes(hash, s, it, k) == One(n == k) + Comes(hash, s, it', k)
  {
    var t, i := HeldSomewhere(hash, s, n);
    FromKeySplits(t[i], n, k);
    FromKeySplits(t[i], n, n);
    var next := Succ(t[i], n);
    if next.Some? { HolderOf(hash, s, t, i, next.value); }
    hide Inv, FromKey, Succ, InChain, InTable, Holder, Get;
  }

  /** The keys of the buckets after `i` are those of the first bucket in use and of those after that. */
  lemma LaterSplits(hash: Key -> nat, t: seq<Chain>, i: int, k: Key)
    requires TableOk(hash, t) && i >= -1
    ensures var j := NextUsed(t, i + 1);
      if j < |t| then One(Later(hash, t, i, k)) == One(InChain(t[j], k)) + One(Later(hash, t, j, k))
      else !Later(hash, t, i, k)
  {
    var j := NextUsed(t, i + 1);
    if j < |t| && InChain(t[j], k) { InBucketInTable(hash, t, j, k); }
    if InTable(hash, t, k) { assert t[Slot(hash, k, |t|)] != []; }
  }

  /** Entering a bucket returns its head and saves the one behind it. */
  lemma EnterComes(hash: Key -> nat, s: State, t: seq<Chain>, it: Iter, j: nat, k: Key)
    requires Inv(hash, s) && (t == s.ht0.buckets || t == s.ht1.buckets) && j < |t| && t[j] != []
    requires t == BucketsOf(s, it.table) && (it.table == 0 || it.table == 1)
    ensures var (it', r) := EnterAt(t, it, j);
      && Followable(hash, s, it')
      && One(InChain(t[j], k)) == One(r == Some(k)) + One(Saved(hash, s, it', k))
  {
    var c := t[j];
    var head := c[0].key;
    assert ChainOk(hash, c, j, |t|);
    assert InChain(c, head) && FromKey(c, head, k) == InChain(c, k);
    FromKeySplits(c, head, k);
    FromKeySplits(c, head, head);
    var next := Succ(c, head);
    if next.Some? { HolderOf(hash, s, t, j, next.value); }
    hide Inv, FromKey, Succ, InChain, InTable, Holder, Get;
  }

  /** It is the number of times `dictNext` will return the key, if nothing happens in between. */
  lemma PointerNextComes(hash: Key -> nat, s: State, it: Iter, k: Key)
    requires Inv(hash, s) && Followable(hash, s, it)
    ensures var (it', r) := PointerNext(hash, s, it);
      && Followable(hash, s, it')
      && Comes(hash, s, it, k) == One(r == Some(k)) + Comes(hash, s, it', k)
      && (r.None? ==> Comes(hash, s, it, k) == 0)
  {
    if it.entry.Some? && it.nextEntry.Some? {
      FollowComes(hash, s, it, it.nextEntry.value, k);
    } else {
      BucketComes(hash, s, it, k);
    }
    hide *;
  }

  lemma BucketComes(hash: Key -> nat, s: State, it: Iter, k: Key)
    requires Inv(hash, s) && Followable(hash, s, it) && !(it.entry.Some? && it.nextEntry.Some?)
    ensures var (it', r) := PointerNext(hash, s, it);
      && Followable(hash, s, it')
      && Comes(hash, s, it, k) == One(r == Some(k)) + Comes(hash, s, it', k)
      && (r.None? ==> Comes(hash, s, it, k) == 0)
  {
    var t := BucketsOf(s, it.table);
    var j := NextUsed(t, it.index + 1);
    LaterSplitsHere(hash, s, it, k);
    hide Inv, Later, InTable, InChain, NextUsed, EnterAt, Followable, Saved;
    assert !Saved(hash, s, it, k) by { NothingSaved(hash, s, it, k); }
    if j < |t| {
      EntersHere(hash, s, it, j, k);
    } else if s.Rehashing() && it.table == 0 {
      SecondComes(hash, s, it, k);
    } else {
      EndsHere(hash, s, it, j, k);
    }
  }

  lemma NothingSaved(hash: Key -> nat, s: State, it: Iter, k: Key)
    requires !(it.entry.Some? && it.nextEntry.Some?)
    ensures !Saved(hash, s, it, k)
  {
  }

  lemma LaterSplitsHere(hash: Key -> nat, s: State, it: Iter, k: Key)
    requires Inv(hash, s) && it.index >= -1
    ensures var t := BucketsOf(s, it.table); var j := NextUsed(t, it.index + 1);
      && (j < |t| ==> t[j] != [])
      && if j < |t| then One(Later(hash, t, it.index, k)) == One(InChain(t[j], k)) + One(Later(hash, t, j, k))
         else !Later(hash, t, it.index, k)
  {
    assert TableOk(hash, BucketsOf(s, it.table));
    LaterSplits(hash, BucketsOf(s, it.table), it.index, k);
  }

  lemma EntersHere(hash: Key -> nat, s: State, it: Iter, j: nat, k: Key)
    requires Inv(hash, s) && (it.table == 0 || it.table == 1)
    requires j < |BucketsOf(s, it.table)| && BucketsOf(s, it.table)[j] != []
    ensures var t := BucketsOf(s, it.table);
      var (it', r) := EnterAt(t, it, j);
      && Followable(hash, s, it') && r.Some?
      && One(InChain(t[j], k)) + One(Later(hash, t, j, k)) + One(Second(hash, s, it, k))
         == One(r == Some(k)) + Comes(hash, s, it', k)
  {
    EnterComes(hash, s, BucketsOf(s, it.table), it, j, k);
    hide Inv, Later, InChain, InTable, Saved, Followable;
  }

  lemma EndsHere(hash: Key -> nat, s: State, it: Iter, j: nat, k: Key)
    requires j >= |BucketsOf(s, it.table)| && !(s.Rehashing() && it.table == 0)
    requires it.table == 0 || it.table == 1
    ensures var (it', r) := EnterAt(BucketsOf(s, it.table), it, j);
      r.None? && Followable(hash, s, it') && Comes(hash, s, it', k) == 0 && !Second(hash, s, it, k)
  {
    NothingLater(hash, BucketsOf(s, it.table), j, k);
    hide Later, InTable;
  }

  /** The second table is begun. */
  lemma SecondComes(hash: Key -> nat, s: State, it: Iter, k: Key)
    requires Inv(hash, s) && s.Rehashing() && it.table == 0
    ensures var t1 := s.ht1.buckets;
      var (it', r) := EnterAt(t1, it.(table := 1), NextUsed(t1, 0));
      && Followable(hash, s, it')
      && One(InTable(hash, t1, k)) == One(r == Some(k)) + Comes(hash, s, it', k)
      && (r.None? ==> !InTable(hash, t1, k))
  {
    var t1 := s.ht1.buckets;
    assert TableOk(hash, t1);
    SecondIsLater(hash, t1, k);
    LaterSplits(hash, t1, -1, k);
    hide Later, InChain, InTable, Holder, FromKey, Get, Succ, TableOk, Inv;
    var j := NextUsed(t1, 0);
    if j < |t1| {
      EnterComes(hash, s, t1, it.(table := 1), j, k);
    } else {
      NothingLater(hash, t1, j, k);
    }
    hide NextUsed;
  }

  lemma NothingLater(hash: Key -> nat, t: seq<Chain>, i: int, k: Key)
    requires i >= |t|
    ensures !Later(hash, t, i, k)
  {
  }

  lemma SecondIsLater(hash: Key -> nat, t: seq<Chain>, k: Key)
    ensures InTable(hash, t, k) <==> Later(hash, t, -1, k)
  {
  }

  /** Of an iterator that no rehash has overtaken nothing comes twice. */
  lemma ComesIsAhead(hash: Key -> nat, s: State, it: Iter, k: Key)
    requires Inv(hash, s) && ItOk(s, it)
    ensures Followable(hash, s, it) && Comes(hash, s, it, k) == One(Ahead(hash, s, it, k))
  {
    var t := BucketsOf(s, it.table);
    if it.entry.Some? && it.nextEntry.Some? {
      var n := it.nextEntry.value;
      HolderOf(hash, s, t, it.index, n);
      FromInChain(t[it.index], n, k);
      if InChain(t[it.index], k) { InBucketInTable(hash, t, it.index, k); }
    }
    assert !(InTable(hash, s.ht0.buckets, k) && InTable(hash, s.ht1.buckets, k));
    hide Inv, FromKey, InChain, InTable, Get, Holder;
  }

  lemma {:induction false} FromInChain(c: Chain, n: Key, k: Key)
    ensures FromKey(c, n, k) ==> InChain(c, k)
  {
    if c != [] && c[0].key != n { FromInChain(c[1..], n, k); }
  }

  // ---- one turn of a rehash

  /** The bucket the next turn moves. */
  function Turn(s: State): nat
    requires s.Rehashing() && 0 <= s.rehashidx <= |s.ht0.buckets|
  {
    FirstUsed(s.ht0.buckets, s.rehashidx)
  }

  /** The turn after which the second table becomes the first. */
  predicate Last(s: State) {
    s.ht0.used == 0
  }

  ghost predicate Moves(hash: Key -> nat, s: State, k: Key)
    requires Inv(hash, s) && s.Rehashing()
  {
    !Last(s) && InTable(hash, s.ht0.buckets, k) && Slot(hash, k, |s.ht0.buckets|) == Turn(s)
  }

  /** When a turn does not harm an iterator: in the first table it is not yet at the bucket that is moved;
      in the second one it has passed all the buckets that the entries go to; and when the second table
      takes the place of the first, an iterator in the first one has no key behind it, and one in the second
      none before it. */
  ghost predicate Harmless(hash: Key -> nat, s: State, it: Iter)
    requires Inv(hash, s) && s.Rehashing()
  {
    var t1 := s.ht1.buckets;
    if Last(s) then
      forall k :: InTable(hash, t1, k) ==> (it.table == 0 <==> Slot(hash, k, |t1|) > it.index)
    else if it.table == 0 then
      Turn(s) > it.index
    else
      forall k :: Moves(hash, s, k) ==> Slot(hash, k, |t1|) <= it.index
  }

  lemma {:induction false} MoveChainFrom(hash: Key -> nat, c: Chain, t: seq<Chain>, j: nat, n: Key, k: Key)
    requires j < |t| && forall m :: 0 <= m < |c| ==> c[m].key != n
    ensures FromKey(MoveChain(hash, c, t)[j], n, k) <==> FromKey(t[j], n, k)
    decreases |c|
  {
    if c != [] {
      var h := Slot(hash, c[0].key, |t|);
      assert ([c[0]] + t[h])[1..] == t[h];
      MoveChainFrom(hash, c[1..], t[h := [c[0]] + t[h]], j, n, k);
    }
  }

  /** Where a turn leaves the keys. */
  lemma TurnMoves(hash: Key -> nat, s: State, k: Key)
    requires Inv(hash, s) && s.Rehashing() && !Last(s)
    ensures Turn(s) < |s.ht0.buckets| && s.ht0.buckets[Turn(s)] != []
    ensures var s' := RehashOne(hash, s);
      && s' == State(Table(s.ht0.buckets[Turn(s) := []], s'.ht0.used),
                     Table(MoveChain(hash, s.ht0.buckets[Turn(s)], s.ht1.buckets), s'.ht1.used),
                     Turn(s) + 1, s.iterators)
      && (InTable(hash, s'.ht0.buckets, k) <==> InTable(hash, s.ht0.buckets, k) && !Moves(hash, s, k))
      && (InTable(hash, s'.ht1.buckets, k) <==> InTable(hash, s.ht1.buckets, k) || Moves(hash, s, k))
    ensures InChain(s.ht0.buckets[Turn(s)], k) <==> Moves(hash, s, k)
  {
    ScanInBounds(hash, s);
    MoveBucketOk(hash, s.ht0.buckets, s.ht1.buckets, Turn(s));
    if InChain(s.ht0.buckets[Turn(s)], k) { InBucketInTable(hash, s.ht0.buckets, Turn(s), k); }
    hide TableOk, Disjoint, Total, MoveChain;
  }

  /** An iterator in the first table: the keys that move come once more if their bucket has been passed. */
  lemma FirstTableTurn(hash: Key -> nat, s: State, it: Iter, k: Key)
    requires Inv(hash, s) && ItOk(s, it) && s.Rehashing() && !Last(s) && it.table == 0 && Turn(s) != it.index
    ensures Comes(hash, RehashOne(hash, s), it, k)
         == Comes(hash, s, it, k) + One(Moves(hash, s, k) && Turn(s) < it.index)
  {
    TurnMoves(hash, s, k);
    if it.entry.Some? && it.nextEntry.Some? {
      HolderIs(hash, s, it, it.nextEntry.value);
      TurnMoves(hash, s, it.nextEntry.value);
    }
    assert !(InTable(hash, s.ht0.buckets, k) && InTable(hash, s.ht1.buckets, k));
    hide Inv, FromKey, InTable, InChain, MoveChain, RehashOne, FirstUsed;
  }

  /** Its own bucket: a key of it comes once more. */
  lemma OwnBucketTurn(hash: Key -> nat, s: State, it: Iter) returns (k: Key)
    requires Inv(hash, s) && ItOk(s, it) && s.Rehashing() && !Last(s) && it.table == 0 && Turn(s) == it.index
    ensures Comes(hash, RehashOne(hash, s), it, k) == Comes(hash, s, it, k) + 1
    ensures Followable(hash, RehashOne(hash, s), it)
  {
    var s' := RehashOne(hash, s);
    RehashOneOk(hash, s);
    TurnMoves(hash, s, 0);
    var c := s.ht0.buckets[it.index];
    k := if it.entry.Some? && it.nextEntry.Some? then it.nextEntry.value else c[0].key;
    HolderOf(hash, s, s.ht0.buckets, it.index, k);
    TurnMoves(hash, s, k);
    var t, i := HeldSomewhere(hash, s', k);
    FromKeySplits(t[i], k, k);
    var t0, i0 := HeldSomewhere(hash, s, k);
    FromKeySplits(t0[i0], k, k);
    hide Inv, FromKey, InTable, InChain, MoveChain, RehashOne, FirstUsed, Holder;
  }

  /** An iterator in the second table: the keys that move ahead of it come once more. */
  lemma SecondTableTurn(hash: Key -> nat, s: State, it: Iter, k: Key)
    requires Inv(hash, s) && ItOk(s, it) && s.Rehashing() && !Last(s) && it.table == 1
    ensures Comes(hash, RehashOne(hash, s), it, k)
         == Comes(hash, s, it, k) + One(Moves(hash, s, k) && Slot(hash, k, |s.ht1.buckets|) > it.index)
  {
    TurnMoves(hash, s, k);
    if it.entry.Some? && it.nextEntry.Some? { SavedStays(hash, s, it, it.nextEntry.value, k); }
    assert !(InTable(hash, s.ht0.buckets, k) && InTable(hash, s.ht1.buckets, k));
    hide Inv, FromKey, InTable, InChain, MoveChain, RehashOne, FirstUsed, Holder;
  }

  lemma SavedStays(hash: Key -> nat, s: State, it: Iter, n: Key, k: Key)
    requires Inv(hash, s) && ItOk(s, it) && s.Rehashing() && !Last(s) && it.table == 1
    requires it.entry.Some? && it.nextEntry == Some(n)
    ensures var s' := RehashOne(hash, s);
      FromKey(Holder(hash, s', n), n, k) <==> FromKey(Holder(hash, s, n), n, k)
  {
    HolderIs(hash, s, it, n);
    TurnMoves(hash, s, n);
    assert !InTable(hash, s.ht0.buckets, n);
    var c := s.ht0.buckets[Turn(s)];
    forall m | 0 <= m < |c| ensures c[m].key != n { AtInChain(c, m); }
    MoveChainFrom(hash, c, s.ht1.buckets, it.index, n, k);
    hide Inv, FromKey, InTable, InChain, MoveChain, FirstUsed;
  }

  /** What the last turn takes from an iterator in the first table: the keys of the buckets up to its own;
      from one in the second table: those of the buckets after its own. */
  ghost predicate Missed(hash: Key -> nat, s: State, it: Iter, k: Key) {
    var t1 := s.ht1.buckets;
    InTable(hash, t1, k) && (it.table == 0 <==> Slot(hash, k, |t1|) <= it.index)
  }

  lemma LastTurn(hash: Key -> nat, s: State, it: Iter, k: Key)
    requires Inv(hash, s) && ItOk(s, it) && s.Rehashing() && Last(s)
    ensures Comes(hash, s, it, k) == Comes(hash, RehashOne(hash, s), it, k) + One(Missed(hash, s, it, k))
    ensures Followable(hash, RehashOne(hash, s), it)
  {
    var t0 := s.ht0.buckets;
    forall i | 0 <= i < |t0| ensures t0[i] == [] { TotalZero(t0, i); }
    EmptyTableHasNone(hash, t0);
    if it.entry.Some? && it.nextEntry.Some? {
      HolderIs(hash, s, it, it.nextEntry.value);
      assert it.table == 1;
    }
    hide Inv, FromKey, InTable, InChain;
  }

  /** A turn leaves the iterator with the same keys to come, each as often as before, exactly when it is
      harmless; else some key comes twice, or is missed. */
  lemma TurnHarmlessIff(hash: Key -> nat, s: State, it: Iter)
    requires Inv(hash, s) && ItOk(s, it) && s.Rehashing()
    ensures Followable(hash, RehashOne(hash, s), it)
    ensures Harmless(hash, s, it) <==> forall k :: Comes(hash, RehashOne(hash, s), it, k) == Comes(hash, s, it, k)
  {
    TurnFollowable(hash, s, it);
    if Last(s) {
      forall k { LastTurn(hash, s, it, k); }
      LastHarmless(hash, s, it);
    } else if it.table == 1 {
      forall k { SecondTableTurn(hash, s, it, k); }
      SecondHarmless(hash, s, it);
    } else if Turn(s) == it.index {
      var k := OwnBucketTurn(hash, s, it);
    } else {
      forall k { FirstTableTurn(hash, s, it, k); }
      FirstMoves(hash, s);
    }
    hide Inv, Comes, Moves, Missed, RehashOne, ItOk, FirstUsed;
  }

  lemma TurnFollowable(hash: Key -> nat, s: State, it: Iter)
    requires Inv(hash, s) && ItOk(s, it) && s.Rehashing()
    ensures Followable(hash, RehashOne(hash, s), it)
  {
    RehashOneOk(hash, s);
    if it.entry.Some? && it.nextEntry.Some? { HolderIs(hash, s, it, it.nextEntry.value); }
    hide Inv, RehashOne, InTable;
  }

  lemma LastHarmless(hash: Key -> nat, s: State, it: Iter)
    requires Inv(hash, s) && ItOk(s, it) && s.Rehashing() && Last(s)
    ensures Harmless(hash, s, it) <==> forall k :: !Missed(hash, s, it, k)
  {
    var t1 := s.ht1.buckets;
    assert |t1| > 0;
    hide InTable, Inv;
    if forall k :: !Missed(hash, s, it, k) {
      forall k | InTable(hash, t1, k) ensures it.table == 0 <==> Slot(hash, k, |t1|) > it.index {
        assert !Missed(hash, s, it, k);
      }
    }
  }

  lemma SecondHarmless(hash: Key -> nat, s: State, it: Iter)
    requires Inv(hash, s) && s.Rehashing() && !Last(s) && it.table == 1
    ensures Harmless(hash, s, it)
       <==> forall k :: !(Moves(hash, s, k) && Slot(hash, k, |s.ht1.buckets|) > it.index)
  {
    hide Moves, Inv;
  }

  /** Every turn but the last moves something. */
  lemma FirstMoves(hash: Key -> nat, s: State)
    requires Inv(hash, s) && s.Rehashing() && !Last(s)
    ensures exists k :: Moves(hash, s, k)
  {
    TurnMoves(hash, s, 0);
    var c := s.ht0.buckets[Turn(s)];
    assert InChain(c, c[0].key);
    TurnMoves(hash, s, c[0].key);
  }

  // ---- `dictRehash` calls that an iteration bears

  /** A harmless turn; when it is the last one, of an iterator whose place the new first table has too. */
  ghost predicate Spares(hash: Key -> nat, s: State, it: Iter)
    requires Inv(hash, s) && s.Rehashing()
  {
    Harmless(hash, s, it) && (Last(s) ==> it.table == 0 && it.index < |s.ht1.buckets|)
  }

  lemma SparesAhead(hash: Key -> nat, s: State, it: Iter, k: Key)
    requires Inv(hash, s) && ItOk(s, it) && s.Rehashing() && Spares(hash, s, it)
    ensures var s' := RehashOne(hash, s);
      && Inv(hash, s') && s'.iterators == s.iterators && Get(hash, s', k) == Get(hash, s, k)
      && ItOk(s', it) && (Ahead(hash, s', it, k) <==> Ahead(hash, s, it, k))
  {
    RehashOneOk(hash, s);
    SparesItOk(hash, s, it);
    TurnHarmlessIff(hash, s, it);
    ComesIsAhead(hash, s, it, k);
    ComesIsAhead(hash, RehashOne(hash, s), it, k);
    hide Inv, ItOk, RehashOne, Comes, Ahead, Harmless;
  }

  lemma SparesItOk(hash: Key -> nat, s: State, it: Iter)
    requires Inv(hash, s) && ItOk(s, it) && s.Rehashing() && Spares(hash, s, it)
    ensures ItOk(RehashOne(hash, s), it)
  {
    if Last(s) {
      var t0 := s.ht0.buckets;
      forall i | 0 <= i < |t0| ensures t0[i] == [] { TotalZero(t0, i); }
    } else {
      TurnMoves(hash, s, 0);
      if it.entry.Some? && it.nextEntry.Some? && it.table == 1 {
        var n := it.nextEntry.value;
        HolderIs(hash, s, it, n);
        TurnMoves(hash, s, n);
        MovedStays(hash, s.ht0.buckets[Turn(s)], s.ht1.buckets, it.index, n);
      }
    }
    hide Inv, MoveChain, FirstUsed, InTable;
  }

  lemma {:induction false} MovedStays(hash: Key -> nat, c: Chain, t: seq<Chain>, j: nat, n: Key)
    requires j < |t| && InChain(t[j], n)
    ensures InChain(MoveChain(hash, c, t)[j], n)
    decreases |c|
  {
    if c != [] {
      var h := Slot(hash, c[0].key, |t|);
      assert ([c[0]] + t[h])[1..] == t[h];
      MovedStays(hash, c[1..], t[h := [c[0]] + t[h]], j, n);
    }
  }

  /** Each of the `n` turns of `dictRehash` spares the iterator. */
  ghost predicate SparedBy(hash: Key -> nat, s: State, it: Iter, n: nat)
    requires Inv(hash, s)
    decreases n
  {
    n == 0 || !s.Rehashing()
    || (Spares(hash, s, it) && (RehashOneOk(hash, s); SparedBy(hash, RehashOne(hash, s), it, n - 1)))
  }

  lemma {:induction false} SparedAhead(hash: Key -> nat, s: State, it: Iter, n: nat, k: Key)
    requires Inv(hash, s) && ItOk(s, it) && SparedBy(hash, s, it, n)
    ensures var s' := Rehash(hash, s, n);
      Get(hash, s', k) == Get(hash, s, k) && ItOk(s', it) && (Ahead(hash, s', it, k) <==> Ahead(hash, s, it, k))
    decreases n
  {
    if n > 0 && s.Rehashing() {
      SparesAhead(hash, s, it, k);
      SparedAhead(hash, RehashOne(hash, s), it, n - 1, k);
    }
    hide Inv, ItOk, RehashOne, Ahead, Spares, Get;
  }
}
