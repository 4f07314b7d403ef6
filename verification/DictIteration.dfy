/** dict.c, safe iterators: what a safe iterator has still to return, and what other operations do to
    it. Entry pointers are named by the key of the entry they point to. */
module DictIteration {
  import opened Bytes
  import opened DictSpec
  import opened DictProofs

  datatype Iter = Iter(table: int, index: int, safe: bool, entry: Option<Key>, nextEntry: Option<Key>)

  const FRESH := Iter(0, -1, true, None, None)

  function BucketsOf(s: State, table: int): seq<Chain> {
    if table == 0 then s.ht0.buckets else s.ht1.buckets
  }

  function HeadKey(c: Chain): Option<Key> {
    if c == [] then None else Some(c[0].key)
  }

  /** The key of the entry after that of `k`. */
  function Succ(c: Chain, k: Key): Option<Key> {
    if c == [] then None else if c[0].key == k then HeadKey(c[1..]) else Succ(c[1..], k)
  }

  /** `k` occurs at the entry of `n` or after it. */
  predicate FromKey(c: Chain, n: Key, k: Key) {
    c != [] && if c[0].key == n then InChain(c, k) else FromKey(c[1..], n, k)
  }

  ghost predicate ItOk(s: State, it: Iter) {
    && (it.table == 0 || it.table == 1) && it.index >= -1
    && (it.table == 1 ==> it.index >= 0 && s.Rehashing())
    && (it.entry.Some? ==>
          && 0 <= it.index < |BucketsOf(s, it.table)|
          && (it.nextEntry.Some? ==> InChain(BucketsOf(s, it.table)[it.index], it.nextEntry.value)))
    && (Started(it) && it.safe ==> s.iterators >= 1)
  }

  predicate Started(it: Iter) {
    !(it.index == -1 && it.table == 0)
  }

  /** `dictNext`: the new state and iterator and the key of the entry returned. */
  ghost function Next(hash: Key -> nat, s: State, it: Iter): (State, Iter, Option<Key>)
    requires Inv(hash, s) && ItOk(s, it)
    decreases 1 - it.table, |BucketsOf(s, it.table)| - it.index, if it.entry.Some? then 1 else 0
  {
    if it.entry.Some? then
      match it.nextEntry
      case Some(n) => (s, it.(entry := Some(n), nextEntry := Succ(BucketsOf(s, it.table)[it.index], n)), Some(n))
      case None => Next(hash, s, it.(entry := None))
    else
      var s := if it.safe && !Started(it) then s.(iterators := s.iterators + 1) else s;
      var it := it.(index := it.index + 1);
      if it.index >= |BucketsOf(s, it.table)| then
        if s.Rehashing() && it.table == 0 then Bucket(hash, s, it.(table := 1, index := 0)) else (s, it, None)
      else Bucket(hash, s, it)
  }

  /** Entering the bucket the iterator points to. */
  ghost function Bucket(hash: Key -> nat, s: State, it: Iter): (State, Iter, Option<Key>)
    requires Inv(hash, s) && ItOk(s, it) && 0 <= it.index < |BucketsOf(s, it.table)|
    decreases 1 - it.table, |BucketsOf(s, it.table)| - it.index, 1
  {
    var c := BucketsOf(s, it.table)[it.index];
    if c == [] then Next(hash, s, it.(entry := None))
    else (s, it.(entry := Some(c[0].key), nextEntry := Succ(c, c[0].key)), Some(c[0].key))
  }

  // ---- what is still to come

  ghost predicate AheadIn(hash: Key -> nat, t: seq<Chain>, it: Iter, k: Key) {
    && InTable(hash, t, k)
    && var i := Slot(hash, k, |t|);
       || i > it.index
       || (i == it.index && it.entry.Some? && it.nextEntry.Some? && FromKey(t[i], it.nextEntry.value, k))
  }

  /** The iterator has still to come to the entry of `k`. */
  ghost predicate Ahead(hash: Key -> nat, s: State, it: Iter, k: Key) {
    if it.table == 0 then AheadIn(hash, s.ht0.buckets, it, k) || InTable(hash, s.ht1.buckets, k)
    else AheadIn(hash, s.ht1.buckets, it, k)
  }

  lemma {:induction false} FromKeySplits(c: Chain, n: Key, k: Key)
    requires forall j, j' :: 0 <= j < j' < |c| ==> c[j].key != c[j'].key
    requires InChain(c, n)
    ensures FromKey(c, n, n)
    ensures Succ(c, n).Some? ==>
              InChain(c, Succ(c, n).value) && !FromKey(c, Succ(c, n).value, n) && Succ(c, n).value != n
    ensures FromKey(c, n, k) <==> k == n || (Succ(c, n).Some? && FromKey(c, Succ(c, n).value, k))
  {
    if c[0].key == n {
      forall j | 0 <= j < |c[1..]| ensures c[1..][j].key != n { assert c[1..][j] == c[j + 1]; }
      NotInChain(c[1..], n);
      if |c| > 1 {
        assert c[1..][0] == c[1] && c[1].key != c[0].key;
        assert FromKey(c, c[1].key, k) == FromKey(c[1..], c[1].key, k) == InChain(c[1..], k);
        assert FromKey(c, c[1].key, n) == FromKey(c[1..], c[1].key, n) == InChain(c[1..], n);
      } else {
        assert c[1..] == [] && !InChain(c[1..], k) && Succ(c, n).None?;
      }
      assert InChain(c, k) <==> k == n || InChain(c[1..], k);
    } else {
      FromKeySplits(c[1..], n, k);
      if Succ(c, n).Some? {
        var j := InChainAt(c[1..], Succ(c, n).value);
        assert c[j + 1].key != c[0].key;
      }
    }
  }

  lemma InvIgnoresIterators(hash: Key -> nat, s: State, n: nat)
    requires Inv(hash, s)
    ensures Inv(hash, s.(iterators := n))
  {
  }

  /** Following the saved `nextEntry` pointer. */
  lemma FollowOk(hash: Key -> nat, s: State, it: Iter, n: Key, k: Key)
    requires Inv(hash, s) && ItOk(s, it) && it.entry.Some? && it.nextEntry == Some(n)
    ensures var it' := it.(entry := Some(n), nextEntry := Succ(BucketsOf(s, it.table)[it.index], n));
            && ItOk(s, it') && it'.nextEntry != Some(n)
            && Ahead(hash, s, it, n) && Get(hash, s, n).Some?
            && (Ahead(hash, s, it', k) <==> Ahead(hash, s, it, k) && k != n)
  {
    var t := BucketsOf(s, it.table);
    InBucketInTable(hash, t, it.index, n);
    assert ChainOk(hash, t[it.index], it.index, |t|);
    FromKeySplits(t[it.index], n, k);
    FromKeySplits(t[it.index], n, n);
  }

  /** Nothing is left of the current bucket: only its number matters. */
  lemma AheadOfBucket(hash: Key -> nat, s: State, it: Iter, n: int, k: Key)
    requires it.entry.None? || it.nextEntry.None?
    ensures Ahead(hash, s, it, k) <==> Ahead(hash, s.(iterators := n), it.(entry := None), k)
  {
  }

  /** At the end of a table the other one, if there is one, is still to come. */
  lemma AheadAtEnd(hash: Key -> nat, s: State, it: Iter, k: Key)
    requires Inv(hash, s) && ItOk(s, it) && it.entry.None? && it.index + 1 >= |BucketsOf(s, it.table)|
    ensures it.table == 0 ==> (Ahead(hash, s, it, k) <==> Ahead(hash, s, it.(table := 1, index := -1), k))
    ensures it.table == 1 || !s.Rehashing() ==> !Ahead(hash, s, it, k) && !Ahead(hash, s, it.(index := it.index + 1), k)
  {
  }

  /** From `it` in `s` to `it'` in `s'`: the entry returned was still to come, and after it exactly the
      others are; nothing is returned when nothing was. */
  ghost predicate Delivers(hash: Key -> nat, s: State, it: Iter, s': State, it': Iter, r: Option<Key>, k: Key) {
    && (r.None? ==> !Ahead(hash, s, it, k) && !Ahead(hash, s', it', k))
    && (r.Some? ==>
          && it'.entry == r && it'.nextEntry != r
          && Ahead(hash, s, it, r.value) && Get(hash, s, r.value).Some?
          && (Ahead(hash, s', it', k) <==> Ahead(hash, s, it, k) && k != r.value))
  }

  ghost predicate SameAhead(hash: Key -> nat, s: State, it: Iter, s1: State, it1: Iter) {
    && s1.(iterators := s.iterators) == s
    && forall k :: Ahead(hash, s, it, k) <==> Ahead(hash, s1, it1, k)
  }

  lemma DeliversFrom(hash: Key -> nat, s: State, it: Iter, s1: State, it1: Iter,
                     s': State, it': Iter, r: Option<Key>, k: Key)
    requires SameAhead(hash, s, it, s1, it1) && Delivers(hash, s1, it1, s', it', r, k)
    ensures Delivers(hash, s, it, s', it', r, k)
  {
    hide Ahead;
  }

  lemma BucketDone(hash: Key -> nat, s: State, it: Iter, n: int)
    requires it.entry.None? || it.nextEntry.None?
    ensures SameAhead(hash, s, it, s.(iterators := n), it.(entry := None))
  {
    forall k { AheadOfBucket(hash, s, it, n, k); }
  }

  lemma TableDone(hash: Key -> nat, s: State, it: Iter)
    requires Inv(hash, s) && ItOk(s, it) && it.entry.None? && it.index + 1 >= |BucketsOf(s, it.table)|
    requires it.table == 0
    ensures SameAhead(hash, s, it, s, it.(table := 1, index := -1))
  {
    forall k { AheadAtEnd(hash, s, it, k); }
  }

  lemma SameAheadTrans(hash: Key -> nat, s: State, it: Iter, s1: State, it1: Iter, s2: State, it2: Iter)
    requires SameAhead(hash, s, it, s1, it1) && SameAhead(hash, s1, it1, s2, it2)
    ensures SameAhead(hash, s, it, s2, it2)
  {
  }

  lemma {:induction false} NextDelivers(hash: Key -> nat, s: State, it: Iter, k: Key)
    requires Inv(hash, s) && ItOk(s, it)
    ensures var (s', it', r) := Next(hash, s, it);
            && Inv(hash, s') && ItOk(s', it') && it'.safe == it.safe && Started(it')
            && s' == s.(iterators := s.iterators + if it.safe && !Started(it) then 1 else 0)
            && (it.entry.Some? ==> Started(it))
            && Delivers(hash, s, it, s', it', r, k)
    decreases 1 - it.table, |BucketsOf(s, it.table)| - it.index, if it.entry.Some? then 1 else 0
  {
    assert s.iterators >= 0;
    hide Ahead, Inv, Delivers, SameAhead;
    if it.entry.Some? {
      match it.nextEntry {
        case Some(n) => FollowDelivers(hash, s, it, n, k);
        case None =>
          var (s', it', r) := Next(hash, s, it);
          NextDelivers(hash, s, it.(entry := None), k);
          BucketDone(hash, s, it, s.iterators);
          DeliversFrom(hash, s, it, s, it.(entry := None), s', it', r, k);
      }
    } else {
      EnterDelivers(hash, s, it, k);
    }
  }

  lemma FollowDelivers(hash: Key -> nat, s: State, it: Iter, n: Key, k: Key)
    requires Inv(hash, s) && ItOk(s, it) && it.entry.Some? && it.nextEntry == Some(n)
    ensures var it' := it.(entry := Some(n), nextEntry := Succ(BucketsOf(s, it.table)[it.index], n));
            ItOk(s, it') && Delivers(hash, s, it, s, it', Some(n), k)
  {
    FollowOk(hash, s, it, n, k);
  }

  /** The first step of a safe iterator counts it. */
  function Counted(s: State, it: Iter): State {
    s.(iterators := s.iterators + if it.safe && !Started(it) then 1 else 0)
  }

  lemma EnterUnfolds(hash: Key -> nat, s: State, it: Iter)
    requires Inv(hash, s) && ItOk(s, it) && it.entry.None?
    ensures var s1, it1 := Counted(s, it), it.(index := it.index + 1);
      && Inv(hash, s1) && BucketsOf(s1, it.table) == BucketsOf(s, it.table) && s1.Rehashing() == s.Rehashing()
      && s1.ht1 == s.ht1
      && if it1.index < |BucketsOf(s, it.table)| then
           ItOk(s1, it1) && Started(it1) && Next(hash, s, it) == Bucket(hash, s1, it1)
         else if s.Rehashing() && it.table == 0 then
           var it2 := it1.(table := 1, index := 0);
           ItOk(s1, it2) && Started(it2) && |s.ht1.buckets| > 0 && Next(hash, s, it) == Bucket(hash, s1, it2)
         else
           Next(hash, s, it) == (s1, it1, None)
  {
    assert s.iterators >= 0 && (s.Rehashing() ==> |s.ht1.buckets| > 0);
    InvIgnoresIterators(hash, s, Counted(s, it).iterators);
    hide Inv, Bucket, FirstUsed;
  }

  /** Without a current entry the next bucket is entered. */
  lemma {:induction false} EnterDelivers(hash: Key -> nat, s: State, it: Iter, k: Key)
    requires Inv(hash, s) && ItOk(s, it) && it.entry.None?
    ensures var (s', it', r) := Next(hash, s, it);
            && Inv(hash, s') && ItOk(s', it') && it'.safe == it.safe && Started(it')
            && s' == s.(iterators := s.iterators + if it.safe && !Started(it) then 1 else 0)
            && Delivers(hash, s, it, s', it', r, k)
    decreases 1 - it.table, |BucketsOf(s, it.table)| - it.index, 0, 0
  {
    var s1, it1 := Counted(s, it), it.(index := it.index + 1);
    var (s', it', r) := Next(hash, s, it);
    assert s1.(iterators := s.iterators) == s;
    EnterUnfolds(hash, s, it);
    hide Ahead, Inv, Delivers, SameAhead, Next, Bucket, ItOk;
    BucketDone(hash, s, it, s1.iterators);
    assert it.(entry := None) == it;
    if it1.index < |BucketsOf(s, it.table)| {
      assert it1.(index := it1.index - 1) == it;
      BucketOk(hash, s1, it1, k);
      DeliversFrom(hash, s, it, s1, it, s', it', r, k);
    } else if s.Rehashing() && it.table == 0 {
      var end := it.(table := 1, index := -1);
      StillOk(hash, s, it);
      TableDone(hash, s1, it);
      assert it1.(table := 1, index := 0).(index := -1) == end;
      BucketOk(hash, s1, it1.(table := 1, index := 0), k);
      SameAheadTrans(hash, s, it, s1, it, s1, end);
      DeliversFrom(hash, s, it, s1, end, s', it', r, k);
    } else {
      StillOk(hash, s, it);
      NothingAhead(hash, s1, it, k);
      DeliversFrom(hash, s, it, s1, it, s', it', r, k);
    }
  }

  /** Counting a safe iterator changes nothing for it, and past the last bucket it is at its end. */
  lemma StillOk(hash: Key -> nat, s: State, it: Iter)
    requires ItOk(s, it) && it.entry.None? && s.iterators >= 0
    ensures ItOk(Counted(s, it), it) && ItOk(Counted(s, it), it.(index := it.index + 1))
    ensures it.table == 1 ==> s.Rehashing()
    ensures it.table == 0 || it.table == 1
    ensures Started(it.(index := it.index + 1))
  {
  }

  lemma NothingAhead(hash: Key -> nat, s: State, it: Iter, k: Key)
    requires Inv(hash, s) && ItOk(s, it) && it.entry.None? && it.index + 1 >= |BucketsOf(s, it.table)|
    requires it.table == 1 || !s.Rehashing()
    ensures Delivers(hash, s, it, s, it.(index := it.index + 1), None, k)
  {
    AheadAtEnd(hash, s, it, k);
  }

  lemma {:induction false} BucketOk(hash: Key -> nat, s: State, it: Iter, k: Key)
    requires Inv(hash, s) && ItOk(s, it) && 0 <= it.index < |BucketsOf(s, it.table)| && Started(it)
    requires it.entry.None?
    ensures var (s', it', r) := Bucket(hash, s, it);
            && s' == s && ItOk(s', it') && it'.safe == it.safe && Started(it')
            && Delivers(hash, s, it.(index := it.index - 1), s', it', r, k)
    decreases 1 - it.table, |BucketsOf(s, it.table)| - it.index, 1
  {
    var c := BucketsOf(s, it.table)[it.index];
    if c == [] {
      var (s', it', r) := Next(hash, s, it);
      NextDelivers(hash, s, it, k);
      EmptyBucket(hash, s, it);
      hide Delivers, SameAhead, Ahead;
      DeliversFrom(hash, s, it.(index := it.index - 1), s, it, s', it', r, k);
    } else {
      HeadDelivers(hash, s, it, k);
    }
  }

  lemma EmptyBucket(hash: Key -> nat, s: State, it: Iter)
    requires ItOk(s, it) && 0 <= it.index < |BucketsOf(s, it.table)| && it.entry.None?
    requires BucketsOf(s, it.table)[it.index] == []
    ensures SameAhead(hash, s, it.(index := it.index - 1), s, it)
  {
  }

  lemma HeadDelivers(hash: Key -> nat, s: State, it: Iter, k: Key)
    requires Inv(hash, s) && ItOk(s, it) && 0 <= it.index < |BucketsOf(s, it.table)| && it.entry.None?
    requires BucketsOf(s, it.table)[it.index] != []
    ensures var c := BucketsOf(s, it.table)[it.index];
            var it' := it.(entry := Some(c[0].key), nextEntry := Succ(c, c[0].key));
            ItOk(s, it') && Delivers(hash, s, it.(index := it.index - 1), s, it', Some(c[0].key), k)
  {
    var t := BucketsOf(s, it.table);
    var c := t[it.index];
    assert InChain(c, c[0].key);
    assert ChainOk(hash, c, it.index, |t|);
    InBucketInTable(hash, t, it.index, c[0].key);
    FromKeySplits(c, c[0].key, k);
  }

  /** `dictNext` returns an entry that was still to come, and after it exactly the others are; when it
      returns nothing, nothing was. */
  lemma NextOk(hash: Key -> nat, s: State, it: Iter, k: Key)
    requires Inv(hash, s) && ItOk(s, it)
    ensures var (s', it', r) := Next(hash, s, it);
            && Inv(hash, s') && ItOk(s', it') && it'.safe == it.safe && Started(it')
            && s' == s.(iterators := s.iterators + if it.safe && !Started(it) then 1 else 0)
            && (it.entry.Some? ==> Started(it))
            && (r.None? ==> !Ahead(hash, s, it, k) && !Ahead(hash, s', it', k))
            && (r.Some? ==>
                  && it'.entry == r && it'.nextEntry != r
                  && Ahead(hash, s, it, r.value) && Get(hash, s, r.value).Some?
                  && (Ahead(hash, s', it', k) <==> Ahead(hash, s, it, k) && k != r.value))
  {
    NextDelivers(hash, s, it, k);
  }

  // ---- what other operations do to what is still to come

  lemma {:induction false} FromKeyRemove(c: Chain, k: Key, n: Key, k': Key)
    requires forall j, j' :: 0 <= j < j' < |c| ==> c[j].key != c[j'].key
    requires n != k && k' != k
    ensures FromKey(ChainRemove(c, k), n, k') <==> FromKey(c, n, k')
  {
    if c != [] {
      if c[0].key != k {
        FromKeyRemove(c[1..], k, n, k');
        ChainRemoveGet(c[1..], k, k');
        assert ([c[0]] + ChainRemove(c[1..], k))[1..] == ChainRemove(c[1..], k);
      } else if InChain(c[1..], n) {
        assert FromKey(c, n, k') == FromKey(c[1..], n, k');
      }
    }
  }

  lemma {:induction false} FromKeySet(c: Chain, k: Key, v: Val, n: Key, k': Key)
    ensures FromKey(ChainSet(c, k, v), n, k') <==> FromKey(c, n, k')
  {
    if c != [] {
      ChainSetGet(c[1..], k, v, k');
      ChainSetGet(c, k, v, k');
      if c[0].key == k {
        assert ([Entry(k, v)] + c[1..])[1..] == c[1..];
      } else {
        FromKeySet(c[1..], k, v, n, k');
        assert ([c[0]] + ChainSet(c[1..], k, v))[1..] == ChainSet(c[1..], k, v);
      }
    }
  }

  /** Bucket by bucket, `t'` holds the keys of `t`, but perhaps for `except`, in the same order: an
      iterator that points to one of them has the same keys to come. */
  ghost predicate SameOrder(t: seq<Chain>, t': seq<Chain>, except: Option<Key>) {
    && |t| == |t'|
    && forall i, n, k {:trigger FromKey(t'[i], n, k)} ::
         0 <= i < |t| && Some(n) != except && Some(k) != except && InChain(t[i], n)
         ==> (FromKey(t'[i], n, k) <==> FromKey(t[i], n, k)) && InChain(t'[i], n)
  }

  lemma PrependKeepsOrder(hash: Key -> nat, t: Table, e: Entry)
    requires |t.buckets| > 0
    ensures SameOrder(t.buckets, Prepend(hash, t, e).buckets, Some(e.key))
  {
    var t' := Prepend(hash, t, e).buckets;
    forall i, n, k | 0 <= i < |t'| && n != e.key && k != e.key && InChain(t.buckets[i], n)
      ensures (FromKey(t'[i], n, k) <==> FromKey(t.buckets[i], n, k)) && InChain(t'[i], n)
    {
      assert ([e] + t.buckets[i])[1..] == t.buckets[i];
    }
  }

  lemma RemoveKeepsOrder(hash: Key -> nat, t: Table, k: Key)
    requires TableOk(hash, t.buckets) && |t.buckets| > 0
    ensures SameOrder(t.buckets, TableRemove(hash, t, k).buckets, Some(k))
  {
    var t' := TableRemove(hash, t, k).buckets;
    forall i, n, k' | 0 <= i < |t'| && n != k && k' != k && InChain(t.buckets[i], n)
      ensures (FromKey(t'[i], n, k') <==> FromKey(t.buckets[i], n, k')) && InChain(t'[i], n)
    {
      assert ChainOk(hash, t.buckets[i], i, |t.buckets|);
      FromKeyRemove(t.buckets[i], k, n, k');
      ChainRemoveGet(t.buckets[i], k, n);
    }
  }

  lemma SetKeepsOrder(hash: Key -> nat, t: Table, k: Key, v: Val)
    requires |t.buckets| > 0
    ensures SameOrder(t.buckets, TableSet(hash, t, k, v).buckets, None)
  {
    var t' := TableSet(hash, t, k, v).buckets;
    forall i, n, k' | 0 <= i < |t'| && InChain(t.buckets[i], n)
      ensures (FromKey(t'[i], n, k') <==> FromKey(t.buckets[i], n, k')) && InChain(t'[i], n)
    {
      FromKeySet(t.buckets[i], k, v, n, k');
      ChainSetGet(t.buckets[i], k, v, n);
    }
  }

  /** The states before and after an operation during an iteration, as the iterator sees them. */
  ghost predicate Undisturbed(hash: Key -> nat, s: State, s': State, except: Option<Key>) {
    && SameOrder(s.ht0.buckets, s'.ht0.buckets, except)
    && (s.Rehashing() ==> s'.Rehashing() && SameOrder(s.ht1.buckets, s'.ht1.buckets, except))
    && s'.iterators == s.iterators
    && forall k :: Some(k) != except ==>
         && (InTable(hash, s'.ht0.buckets, k) <==> InTable(hash, s.ht0.buckets, k))
         && (InTable(hash, s'.ht1.buckets, k) <==> InTable(hash, s.ht1.buckets, k))
  }

  /** Such an operation leaves the iterator good and what it has to come the same, provided the entry
      it saved as next is still there. */
  lemma UndisturbedAhead(hash: Key -> nat, s: State, s': State, except: Option<Key>, it: Iter, k: Key)
    requires Inv(hash, s) && Inv(hash, s') && ItOk(s, it) && Undisturbed(hash, s, s', except)
    requires |s.ht0.buckets| > 0 && Started(it)
    requires it.entry.Some? && it.nextEntry.Some? ==> it.nextEntry != except
    requires Some(k) != except
    ensures ItOk(s', it) && (Ahead(hash, s', it, k) <==> Ahead(hash, s, it, k))
  {
    if it.entry.Some? && it.nextEntry.Some? {
      var t, t' := BucketsOf(s, it.table), BucketsOf(s', it.table);
      assert FromKey(t'[it.index], it.nextEntry.value, k) <==> FromKey(t[it.index], it.nextEntry.value, k);
    }
  }

  lemma SameOrderRefl(t: seq<Chain>, except: Option<Key>)
    ensures SameOrder(t, t, except)
  {
  }

  lemma UnlinkUndisturbed(hash: Key -> nat, s: State, k: Key)
    requires Inv(hash, s)
    ensures Undisturbed(hash, s, Unlink(hash, s, k), Some(k))
  {
    SameOrderRefl(s.ht0.buckets, Some(k));
    SameOrderRefl(s.ht1.buckets, Some(k));
    if InTable(hash, s.ht0.buckets, k) {
      RemoveKeepsOrder(hash, s.ht0, k);
      RemoveOk(hash, s.ht0, k);
    } else if InTable(hash, s.ht1.buckets, k) {
      RemoveKeepsOrder(hash, s.ht1, k);
      RemoveOk(hash, s.ht1, k);
    }
  }

  lemma AssignUndisturbed(hash: Key -> nat, s: State, k: Key, v: Val)
    requires Inv(hash, s)
    ensures Undisturbed(hash, s, Assign(hash, s, k, v), None)
  {
    SameOrderRefl(s.ht0.buckets, None);
    SameOrderRefl(s.ht1.buckets, None);
    if InTable(hash, s.ht0.buckets, k) {
      SetKeepsOrder(hash, s.ht0, k, v);
      SetOk(hash, s.ht0, k, v);
    } else if InTable(hash, s.ht1.buckets, k) {
      SetKeepsOrder(hash, s.ht1, k, v);
      SetOk(hash, s.ht1, k, v);
    }
  }

  /** An insertion may start a rehash; with a safe iterator alive no bucket moves. */
  lemma AddUndisturbed(hash: Key -> nat, s: State, k: Key, v: Val, canResize: bool)
    requires Inv(hash, s) && s.iterators > 0 && |s.ht0.buckets| > 0
    ensures var (s', added) := Add(hash, s, k, v, canResize);
            Undisturbed(hash, s, s', if added then Some(k) else None)
  {
    var s2 := ExpandIfNeeded(s, canResize);
    ExpandIfNeededOk(hash, s, canResize);
    var except := if Get(hash, s2, k).None? then Some(k) else None;
    SameOrderRefl(s.ht0.buckets, except);
    SameOrderRefl(s.ht1.buckets, except);
    GrowthAddsNoKey(hash, s, canResize);
    if Get(hash, s2, k).None? {
      if s2.Rehashing() {
        PrependKeepsOrder(hash, s2.ht1, Entry(k, v));
        PrependOk(hash, s2.ht1, Entry(k, v));
      } else {
        PrependKeepsOrder(hash, s2.ht0, Entry(k, v));
        PrependOk(hash, s2.ht0, Entry(k, v));
      }
    }
  }

  /** Beginning a rehash moves nothing. */
  lemma ExpandUndisturbed(hash: Key -> nat, s: State, size: nat)
    requires Inv(hash, s) && |s.ht0.buckets| > 0
    ensures Undisturbed(hash, s, Expand(s, size), None)
  {
    NewTableOk(hash, size);
    SameOrderRefl(s.ht0.buckets, None);
    SameOrderRefl(s.ht1.buckets, None);
  }

  lemma GrowthAddsNoKey(hash: Key -> nat, s: State, canResize: bool)
    requires Inv(hash, s)
    ensures forall k :: InTable(hash, ExpandIfNeeded(s, canResize).ht1.buckets, k) <==> InTable(hash, s.ht1.buckets, k)
  {
    var size := |s.ht0.buckets|;
    NewTableOk(hash, INITIAL_SIZE);
    NewTableOk(hash, (if size > s.ht0.used then size else s.ht0.used) * 2);
  }
}
