/** The two tables of dict.c always stand for one finite map. */
module DictProofs {
  import opened Bytes
  import opened DictSpec

  // ---- chains and tables

  lemma {:induction false} TotalUpdate(t: seq<Chain>, i: nat, c: Chain)
    requires i < |t|
    ensures Total(t[i := c]) == Total(t) - |t[i]| + |c|
  {
    if i == 0 {
      assert t[i := c][1..] == t[1..];
    } else {
      assert t[i := c][1..] == t[1..][i - 1 := c];
      TotalUpdate(t[1..], i - 1, c);
    }
  }

  lemma {:induction false} TotalZero(t: seq<Chain>, i: nat)
    requires Total(t) == 0 && i < |t|
    ensures t[i] == []
  {
    if i > 0 { TotalZero(t[1..], i - 1); }
  }

  lemma {:induction false} TotalEmpty(t: seq<Chain>)
    requires forall i :: 0 <= i < |t| ==> t[i] == []
    ensures Total(t) == 0
  {
    if t != [] { TotalEmpty(t[1..]); }
  }

  lemma {:induction false} InChainAt(c: Chain, k: Key) returns (j: nat)
    requires InChain(c, k)
    ensures j < |c| && c[j] == Entry(k, ChainGet(c, k).value)
  {
    if c[0].key == k { j := 0; } else { j := InChainAt(c[1..], k); j := j + 1; }
  }

  lemma {:induction false} AtInChain(c: Chain, j: nat)
    requires j < |c|
    ensures InChain(c, c[j].key)
  {
    if j > 0 { AtInChain(c[1..], j - 1); }
  }

  lemma NotInChain(c: Chain, k: Key)
    requires forall j :: 0 <= j < |c| ==> c[j].key != k
    ensures !InChain(c, k)
  {
    if InChain(c, k) { var j := InChainAt(c, k); }
  }

  /** A key can only be in the bucket its hash names. */
  lemma InBucketInTable(hash: Key -> nat, t: seq<Chain>, i: nat, k: Key)
    requires TableOk(hash, t) && i < |t| && InChain(t[i], k)
    ensures i == Slot(hash, k, |t|) && InTable(hash, t, k)
  {
    var j := InChainAt(t[i], k);
    assert ChainOk(hash, t[i], i, |t|);
  }

  lemma EmptyTableHasNone(hash: Key -> nat, t: seq<Chain>)
    requires forall i :: 0 <= i < |t| ==> t[i] == []
    ensures forall k :: !InTable(hash, t, k)
  {
  }

  /** Replacing one good bucket by another good one. */
  lemma TableOkUpdate(hash: Key -> nat, t: seq<Chain>, i: nat, c: Chain)
    requires TableOk(hash, t) && i < |t| && ChainOk(hash, c, i, |t|)
    ensures TableOk(hash, t[i := c])
  {
  }

  /** Prepending an entry whose key is new. */
  lemma PrependOk(hash: Key -> nat, t: Table, e: Entry)
    requires TableOk(hash, t.buckets) && |t.buckets| > 0 && t.used == Total(t.buckets)
    requires !InTable(hash, t.buckets, e.key)
    ensures var t' := Prepend(hash, t, e);
            && TableOk(hash, t'.buckets) && t'.used == Total(t'.buckets) && |t'.buckets| == |t.buckets|
            && forall k :: TableGet(hash, t'.buckets, k)
                           == if k == e.key then Some(e.val) else TableGet(hash, t.buckets, k)
  {
    var h := Slot(hash, e.key, |t.buckets|);
    var c := t.buckets[h];
    forall j | 0 <= j < |c| ensures c[j].key != e.key { AtInChain(c, j); }
    assert ChainOk(hash, c, h, |t.buckets|);
    assert ChainOk(hash, [e] + c, h, |t.buckets|);
    TableOkUpdate(hash, t.buckets, h, [e] + c);
    TotalUpdate(t.buckets, h, [e] + c);
    assert ([e] + c)[1..] == c;
  }

  lemma {:induction false} ChainRemoveGet(c: Chain, k: Key, k': Key)
    requires forall j, j' :: 0 <= j < j' < |c| ==> c[j].key != c[j'].key
    ensures ChainGet(ChainRemove(c, k), k') == if k' == k then None else ChainGet(c, k')
    ensures |ChainRemove(c, k)| == |c| - if InChain(c, k) then 1 else 0
    ensures forall e :: e in ChainRemove(c, k) ==> e in c
  {
    if c == [] {
    } else if c[0].key == k {
      if InChain(c[1..], k) { var j := InChainAt(c[1..], k); }
    } else {
      ChainRemoveGet(c[1..], k, k');
      assert ([c[0]] + ChainRemove(c[1..], k))[1..] == ChainRemove(c[1..], k);
    }
  }

  lemma {:induction false} ChainRemoveDistinct(c: Chain, k: Key)
    requires forall j, j' :: 0 <= j < j' < |c| ==> c[j].key != c[j'].key
    ensures forall j, j' :: 0 <= j < j' < |ChainRemove(c, k)|
              ==> ChainRemove(c, k)[j].key != ChainRemove(c, k)[j'].key
  {
    if c != [] && c[0].key != k {
      ChainRemoveDistinct(c[1..], k);
      ChainRemoveGet(c[1..], k, k);
      var r := ChainRemove(c[1..], k);
      forall j | 0 <= j < |r| ensures r[j].key != c[0].key {
        assert r[j] in c[1..];
      }
    }
  }

  lemma RemoveOk(hash: Key -> nat, t: Table, k: Key)
    requires TableOk(hash, t.buckets) && t.used == Total(t.buckets) && InTable(hash, t.buckets, k)
    ensures var t' := TableRemove(hash, t, k);
            && TableOk(hash, t'.buckets) && t'.used == Total(t'.buckets) && |t'.buckets| == |t.buckets|
            && forall k' :: TableGet(hash, t'.buckets, k')
                            == if k' == k then None else TableGet(hash, t.buckets, k')
  {
    var h := Slot(hash, k, |t.buckets|);
    var c := t.buckets[h];
    assert ChainOk(hash, c, h, |t.buckets|);
    ChainRemoveDistinct(c, k);
    ChainRemoveGet(c, k, k);
    forall j | 0 <= j < |ChainRemove(c, k)|
      ensures Slot(hash, ChainRemove(c, k)[j].key, |t.buckets|) == h
    {
      assert ChainRemove(c, k)[j] in c;
    }
    TableOkUpdate(hash, t.buckets, h, ChainRemove(c, k));
    TotalUpdate(t.buckets, h, ChainRemove(c, k));
    forall k' ensures TableGet(hash, TableRemove(hash, t, k).buckets, k')
                      == if k' == k then None else TableGet(hash, t.buckets, k')
    {
      ChainRemoveGet(c, k, k');
    }
  }

  lemma {:induction false} ChainSetGet(c: Chain, k: Key, v: Val, k': Key)
    ensures |ChainSet(c, k, v)| == |c|
    ensures forall j :: 0 <= j < |c| ==> ChainSet(c, k, v)[j].key == c[j].key
    ensures ChainGet(ChainSet(c, k, v), k') == if k' == k && InChain(c, k) then Some(v) else ChainGet(c, k')
  {
    if c != [] && c[0].key != k {
      ChainSetGet(c[1..], k, v, k');
      assert ([c[0]] + ChainSet(c[1..], k, v))[1..] == ChainSet(c[1..], k, v);
    } else if c != [] {
      assert ([Entry(k, v)] + c[1..])[1..] == c[1..];
    }
  }

  lemma SetOk(hash: Key -> nat, t: Table, k: Key, v: Val)
    requires TableOk(hash, t.buckets) && t.used == Total(t.buckets) && InTable(hash, t.buckets, k)
    ensures var t' := TableSet(hash, t, k, v);
            && TableOk(hash, t'.buckets) && t'.used == Total(t'.buckets) && |t'.buckets| == |t.buckets|
            && forall k' :: TableGet(hash, t'.buckets, k')
                            == if k' == k then Some(v) else TableGet(hash, t.buckets, k')
  {
    var h := Slot(hash, k, |t.buckets|);
    var c := t.buckets[h];
    assert ChainOk(hash, c, h, |t.buckets|);
    ChainSetGet(c, k, v, k);
    TableOkUpdate(hash, t.buckets, h, ChainSet(c, k, v));
    TotalUpdate(t.buckets, h, ChainSet(c, k, v));
    forall k' ensures TableGet(hash, TableSet(hash, t, k, v).buckets, k')
                      == if k' == k then Some(v) else TableGet(hash, t.buckets, k')
    {
      ChainSetGet(c, k, v, k');
    }
  }

  // ---- rehashing

  /** Moving a chain of keys that are new to `t` adds exactly its entries. */
  lemma {:induction false} MoveChainOk(hash: Key -> nat, c: Chain, t: seq<Chain>)
    requires TableOk(hash, t) && |t| > 0
    requires forall j, j' :: 0 <= j < j' < |c| ==> c[j].key != c[j'].key
    requires forall j :: 0 <= j < |c| ==> !InTable(hash, t, c[j].key)
    ensures TableOk(hash, MoveChain(hash, c, t)) && Total(MoveChain(hash, c, t)) == Total(t) + |c|
    ensures forall k :: TableGet(hash, MoveChain(hash, c, t), k)
                     == if InChain(c, k) then ChainGet(c, k) else TableGet(hash, t, k)
    decreases |c|
  {
    if c != [] {
      var t' := Prepend(hash, Table(t, Total(t)), c[0]).buckets;
      PrependOk(hash, Table(t, Total(t)), c[0]);
      MoveChainOk(hash, c[1..], t');
      if InChain(c[1..], c[0].key) { var j := InChainAt(c[1..], c[0].key); }
    }
  }

  /** Emptying a bucket removes exactly its keys. */
  lemma EmptyBucketOk(hash: Key -> nat, t: seq<Chain>, i: nat)
    requires TableOk(hash, t) && i < |t|
    ensures TableOk(hash, t[i := []]) && Total(t[i := []]) == Total(t) - |t[i]|
    ensures forall k :: TableGet(hash, t[i := []], k) == if InChain(t[i], k) then None else TableGet(hash, t, k)
  {
    TableOkUpdate(hash, t, i, []);
    TotalUpdate(t, i, []);
    forall k | InChain(t[i], k) ensures Slot(hash, k, |t|) == i {
      InBucketInTable(hash, t, i, k);
    }
  }

  /** Moving bucket `i`: what left the first table is now in the second one, and nothing else changed. */
  lemma MoveBucketOk(hash: Key -> nat, t0: seq<Chain>, t1: seq<Chain>, i: nat)
    requires TableOk(hash, t0) && TableOk(hash, t1) && Disjoint(hash, t0, t1) && i < |t0| && |t1| > 0
    ensures var t0', t1' := t0[i := []], MoveChain(hash, t0[i], t1);
            && TableOk(hash, t0') && TableOk(hash, t1')
            && Total(t0') == Total(t0) - |t0[i]| && Total(t1') == Total(t1) + |t0[i]|
            && (forall k :: TableGet(hash, t0', k) == if InChain(t0[i], k) then None else TableGet(hash, t0, k))
            && (forall k :: TableGet(hash, t1', k)
                            == if InChain(t0[i], k) then TableGet(hash, t0, k) else TableGet(hash, t1, k))
  {
    var c := t0[i];
    assert ChainOk(hash, c, i, |t0|);
    forall j | 0 <= j < |c| ensures !InTable(hash, t1, c[j].key) {
      AtInChain(c, j);
      InBucketInTable(hash, t0, i, c[j].key);
    }
    MoveChainOk(hash, c, t1);
    EmptyBucketOk(hash, t0, i);
    forall k | InChain(c, k) ensures TableGet(hash, t0, k) == ChainGet(c, k) {
      InBucketInTable(hash, t0, i, k);
    }
  }

  lemma MoveBucketAnswer(hash: Key -> nat, t0: seq<Chain>, t1: seq<Chain>, i: nat, k: Key)
    requires TableOk(hash, t0) && TableOk(hash, t1) && Disjoint(hash, t0, t1) && i < |t0| && |t1| > 0
    ensures !(InTable(hash, t0[i := []], k) && InTable(hash, MoveChain(hash, t0[i], t1), k))
    ensures GetFrom(hash, t0[i := []], MoveChain(hash, t0[i], t1), k) == GetFrom(hash, t0, t1, k)
  {
    if InChain(t0[i], k) { InBucketInTable(hash, t0, i, k); }
    assert !(InTable(hash, t0, k) && InTable(hash, t1, k));
    MoveBucketOk(hash, t0, t1, i);
    hide TableGet, MoveChain, TableOk, Disjoint;
  }

  lemma MoveBucketAnswers(hash: Key -> nat, t0: seq<Chain>, t1: seq<Chain>, i: nat)
    requires TableOk(hash, t0) && TableOk(hash, t1) && Disjoint(hash, t0, t1) && i < |t0| && |t1| > 0
    ensures Disjoint(hash, t0[i := []], MoveChain(hash, t0[i], t1))
    ensures forall k :: GetFrom(hash, t0[i := []], MoveChain(hash, t0[i], t1), k) == GetFrom(hash, t0, t1, k)
  {
    hide InTable, GetFrom, MoveChain, TableOk;
    forall k
      ensures !(InTable(hash, t0[i := []], k) && InTable(hash, MoveChain(hash, t0[i], t1), k))
      ensures GetFrom(hash, t0[i := []], MoveChain(hash, t0[i], t1), k) == GetFrom(hash, t0, t1, k)
    {
      MoveBucketAnswer(hash, t0, t1, i, k);
    }
  }

  /** The scan for a non-empty bucket stays inside the table. */
  lemma ScanInBounds(hash: Key -> nat, s: State)
    requires Inv(hash, s) && s.Rehashing() && s.ht0.used != 0
    ensures FirstUsed(s.ht0.buckets, s.rehashidx) < |s.ht0.buckets|
  {
    if FirstUsed(s.ht0.buckets, s.rehashidx) == |s.ht0.buckets| { TotalEmpty(s.ht0.buckets); }
  }

  /** A turn of the rehash keeps the invariant and every answer, and makes progress. */
  lemma RehashOneOk(hash: Key -> nat, s: State)
    requires Inv(hash, s) && s.Rehashing()
    ensures var s' := RehashOne(hash, s);
            && Inv(hash, s') && s'.iterators == s.iterators
            && (forall k :: Get(hash, s', k) == Get(hash, s, k))
            && (s'.Rehashing() ==> s'.rehashidx > s.rehashidx && |s'.ht0.buckets| == |s.ht0.buckets|)
            && (s'.Rehashing() <==> s.ht0.used != 0)
            && |s'.ht0.buckets| > 0
  {
    var t0 := s.ht0.buckets;
    if s.ht0.used == 0 {
      forall i | 0 <= i < |t0| ensures t0[i] == [] { TotalZero(t0, i); }
      EmptyTableHasNone(hash, t0);
    } else {
      ScanInBounds(hash, s);
      MoveBucketOk(hash, t0, s.ht1.buckets, FirstUsed(t0, s.rehashidx));
      MoveBucketAnswers(hash, t0, s.ht1.buckets, FirstUsed(t0, s.rehashidx));
      hide TableOk, InTable;
    }
  }

  /** `dictRehash(d, n)`. */
  ghost function Rehash(hash: Key -> nat, s: State, n: nat): (r: State)
    requires Inv(hash, s)
    ensures Inv(hash, r)
    decreases n
  {
    if n == 0 || !s.Rehashing() then s
    else
      RehashOneOk(hash, s);
      Rehash(hash, RehashOne(hash, s), n - 1)
  }

  /** A rehash of a table of `size` buckets is over after `size + 1` steps, and no number of steps
      changes what the dictionary answers. */
  lemma {:induction false} RehashCompletes(hash: Key -> nat, s: State, n: nat)
    requires Inv(hash, s)
    ensures forall k :: Get(hash, Rehash(hash, s, n), k) == Get(hash, s, k)
    ensures s.Rehashing() && n > |s.ht0.buckets| - s.rehashidx ==> !Rehash(hash, s, n).Rehashing()
    ensures Rehash(hash, s, n).iterators == s.iterators
    decreases n
  {
    if n > 0 && s.Rehashing() {
      RehashOneOk(hash, s);
      RehashBounds(hash, s);
      hide Inv, RehashOne, Get;
      RehashCompletes(hash, RehashOne(hash, s), n - 1);
    }
  }

  lemma RehashBounds(hash: Key -> nat, s: State)
    requires Inv(hash, s) && s.Rehashing()
    ensures 0 <= s.rehashidx <= |s.ht0.buckets|
    ensures s.rehashidx == |s.ht0.buckets| ==> s.ht0.used == 0
  {
    if s.rehashidx == |s.ht0.buckets| { TotalEmpty(s.ht0.buckets); }
  }

  // ---- growing

  lemma Pow2Doubles(i: nat)
    requires IsPow2(i)
    ensures IsPow2(i * 2)
  {
    assert i * 2 / 2 == i;
  }

  lemma {:induction false} NextPowerIsPow2(i: nat, size: nat)
    requires IsPow2(i)
    ensures IsPow2(NextPowerFrom(i, size)) && NextPowerFrom(i, size) >= size
    ensures NextPowerFrom(i, size) > i ==> NextPowerFrom(i, size) / 2 < size
    decreases size - i
  {
    if i < size {
      Pow2Doubles(i);
      hide IsPow2;
      NextPowerIsPow2(i * 2, size);
    }
  }

  lemma NewTableOk(hash: Key -> nat, size: nat)
    ensures var n := NextPower(size);
            && n >= size && n > 0 && |NewTable(n).buckets| == n && TableOk(hash, NewTable(n).buckets)
            && Total(NewTable(n).buckets) == 0 && forall k :: !InTable(hash, NewTable(n).buckets, k)
  {
    assert IsPow2(2) && IsPow2(4);
    NextPowerIsPow2(INITIAL_SIZE, size);
    TotalEmpty(NewTable(NextPower(size)).buckets);
    EmptyTableHasNone(hash, NewTable(NextPower(size)).buckets);
  }

  lemma ExpandOk(hash: Key -> nat, s: State, size: nat)
    requires Inv(hash, s)
    ensures Inv(hash, Expand(s, size)) && Expand(s, size).iterators == s.iterators
    ensures forall k :: Get(hash, Expand(s, size), k) == Get(hash, s, k)
    ensures !s.Rehashing() && s.ht0.used <= size ==> Expand(s, size) != s
  {
    NewTableOk(hash, size);
  }

  lemma ResizeOk(hash: Key -> nat, s: State, canResize: bool)
    requires Inv(hash, s)
    ensures Inv(hash, Resize(s, canResize)) && Resize(s, canResize).iterators == s.iterators
    ensures forall k :: Get(hash, Resize(s, canResize), k) == Get(hash, s, k)
  {
    ExpandOk(hash, s, if s.ht0.used < INITIAL_SIZE then INITIAL_SIZE else s.ht0.used);
  }

  /** Growing never fails where the code calls it, and leaves a table to insert into. */
  lemma ExpandIfNeededOk(hash: Key -> nat, s: State, canResize: bool)
    requires Inv(hash, s)
    ensures var s' := ExpandIfNeeded(s, canResize);
            && Inv(hash, s') && s'.iterators == s.iterators && |s'.ht0.buckets| > 0
            && (forall k :: Get(hash, s', k) == Get(hash, s, k))
            && (|s.ht0.buckets| > 0 ==> s'.ht0 == s.ht0)
            && (s.Rehashing() ==> s' == s)
  {
    var size := |s.ht0.buckets|;
    ExpandOk(hash, s, INITIAL_SIZE);
    if size > 0 { ExpandOk(hash, s, (if size > s.ht0.used then size else s.ht0.used) * 2); }
    NewTableOk(hash, INITIAL_SIZE);
  }

  // ---- the operations refine a finite map

  lemma MaybeStepOk(hash: Key -> nat, s: State)
    requires Inv(hash, s)
    ensures Inv(hash, MaybeStep(hash, s)) && MaybeStep(hash, s).iterators == s.iterators
    ensures forall k :: Get(hash, MaybeStep(hash, s), k) == Get(hash, s, k)
    ensures |s.ht0.buckets| > 0 ==> |MaybeStep(hash, s).ht0.buckets| > 0
  {
    if s.Rehashing() && s.iterators == 0 { RehashOneOk(hash, s); }
  }

  lemma InsertOk(hash: Key -> nat, s: State, e: Entry)
    requires Inv(hash, s) && |s.ht0.buckets| > 0 && Get(hash, s, e.key).None?
    ensures var s' := if s.Rehashing() then s.(ht1 := Prepend(hash, s.ht1, e)) else s.(ht0 := Prepend(hash, s.ht0, e));
            Inv(hash, s') && forall k :: Get(hash, s', k) == if k == e.key then Some(e.val) else Get(hash, s, k)
  {
    if s.Rehashing() { PrependOk(hash, s.ht1, e); } else { PrependOk(hash, s.ht0, e); }
  }

  lemma AddOk(hash: Key -> nat, s: State, k: Key, v: Val, canResize: bool)
    requires Inv(hash, s)
    ensures var (s', ok) := Add(hash, s, k, v, canResize);
            && Inv(hash, s') && s'.iterators == s.iterators && |s'.ht0.buckets| > 0
            && ok == Get(hash, s, k).None?
            && forall k' :: Get(hash, s', k') == if ok && k' == k then Some(v) else Get(hash, s, k')
  {
    MaybeStepOk(hash, s);
    ExpandIfNeededOk(hash, MaybeStep(hash, s), canResize);
    if Get(hash, s, k).None? {
      InsertOk(hash, ExpandIfNeeded(MaybeStep(hash, s), canResize), Entry(k, v));
    }
  }

  lemma AssignOk(hash: Key -> nat, s: State, k: Key, v: Val)
    requires Inv(hash, s) && Get(hash, s, k).Some?
    ensures Inv(hash, Assign(hash, s, k, v)) && Assign(hash, s, k, v).iterators == s.iterators
    ensures forall k' :: Get(hash, Assign(hash, s, k, v), k') == if k' == k then Some(v) else Get(hash, s, k')
  {
    if InTable(hash, s.ht0.buckets, k) { SetOk(hash, s.ht0, k, v); } else { SetOk(hash, s.ht1, k, v); }
    EmptiesKept(hash, s, Assign(hash, s, k, v), k);
  }

  /** Buckets below `rehashidx` hold no key, so an operation on a key of the first table spares them. */
  lemma EmptiesKept(hash: Key -> nat, s: State, s': State, k: Key)
    requires Inv(hash, s) && |s'.ht0.buckets| == |s.ht0.buckets|
    requires !InTable(hash, s.ht0.buckets, k) ==> s'.ht0 == s.ht0
    requires InTable(hash, s.ht0.buckets, k) ==>
               forall i :: 0 <= i < |s.ht0.buckets| && i != Slot(hash, k, |s.ht0.buckets|)
                 ==> s'.ht0.buckets[i] == s.ht0.buckets[i]
    ensures forall i :: 0 <= i < s.rehashidx ==> s'.ht0.buckets[i] == []
  {
  }

  lemma UnlinkOk(hash: Key -> nat, s: State, k: Key)
    requires Inv(hash, s)
    ensures Inv(hash, Unlink(hash, s, k)) && Unlink(hash, s, k).iterators == s.iterators
    ensures forall k' :: Get(hash, Unlink(hash, s, k), k') == if k' == k then None else Get(hash, s, k')
  {
    if InTable(hash, s.ht0.buckets, k) { RemoveOk(hash, s.ht0, k); }
    else if InTable(hash, s.ht1.buckets, k) { RemoveOk(hash, s.ht1, k); }
    EmptiesKept(hash, s, Unlink(hash, s, k), k);
  }

  lemma DeleteOk(hash: Key -> nat, s: State, k: Key)
    requires Inv(hash, s)
    ensures var (s', ok) := Delete(hash, s, k);
            && Inv(hash, s') && s'.iterators == s.iterators
            && ok == Get(hash, s, k).Some?
            && forall k' :: Get(hash, s', k') == if k' == k then None else Get(hash, s, k')
  {
    MaybeStepOk(hash, s);
    UnlinkOk(hash, MaybeStep(hash, s), k);
  }

  lemma FindOk(hash: Key -> nat, s: State, k: Key)
    requires Inv(hash, s)
    ensures var (s', r) := Find(hash, s, k);
            && Inv(hash, s') && s'.iterators == s.iterators && r == Get(hash, s, k)
            && forall k' :: Get(hash, s', k') == Get(hash, s, k')
  {
    MaybeStepOk(hash, s);
  }

  /** `dictReplace`: an add, and when that fails a lookup (which may move a bucket) and an assignment. */
  ghost function Replace(hash: Key -> nat, s: State, k: Key, v: Val, canResize: bool): (State, bool)
    requires Inv(hash, s)
  {
    AddOk(hash, s, k, v, canResize);
    var (s1, added) := Add(hash, s, k, v, canResize);
    (if added then s1 else Assign(hash, MaybeStep(hash, s1), k, v), added)
  }

  lemma ReplaceOk(hash: Key -> nat, s: State, k: Key, v: Val, canResize: bool)
    requires Inv(hash, s)
    ensures var (s', added) := Replace(hash, s, k, v, canResize);
            && Inv(hash, s') && s'.iterators == s.iterators
            && added == Get(hash, s, k).None?
            && forall k' :: Get(hash, s', k') == if k' == k then Some(v) else Get(hash, s, k')
  {
    AddOk(hash, s, k, v, canResize);
    var (s1, added) := Add(hash, s, k, v, canResize);
    if !added {
      MaybeStepOk(hash, s1);
      AssignOk(hash, MaybeStep(hash, s1), k, v);
    }
  }

  // ---- whole runs

  datatype Op =
    | DoFind(key: Key)
    | DoAdd(key: Key, val: Val, canResize: bool)
    | DoReplace(key: Key, val: Val, canResize: bool)
    | DoDelete(key: Key)
    | DoExpand(size: nat)
    | DoResize(canResize: bool)
    | DoRehash(n: nat)

  /** What an operation on the keys returns. The status of a resize or of a rehash is about the tables
      and says nothing of the contents. */
  datatype Answer = Value(v: Option<Val>) | Flag(b: bool) | Status

  ghost function Step(hash: Key -> nat, s: State, op: Op): (State, Answer)
    requires Inv(hash, s)
  {
    match op
    case DoFind(k) => var (s', r) := Find(hash, s, k); (s', Value(r))
    case DoAdd(k, v, c) => var (s', r) := Add(hash, s, k, v, c); (s', Flag(r))
    case DoReplace(k, v, c) => var (s', r) := Replace(hash, s, k, v, c); (s', Flag(r))
    case DoDelete(k) => var (s', r) := Delete(hash, s, k); (s', Flag(r))
    case DoExpand(size) => (Expand(s, size), Status)
    case DoResize(c) => (Resize(s, c), Status)
    case DoRehash(n) => (Rehash(hash, s, n), Status)
  }

  /** The same operation on a finite map. */
  function MapStep(m: map<Key, Val>, op: Op): (map<Key, Val>, Answer) {
    match op
    case DoFind(k) => (m, Value(if k in m then Some(m[k]) else None))
    case DoAdd(k, v, _) => (if k in m then m else m[k := v], Flag(k !in m))
    case DoReplace(k, v, _) => (m[k := v], Flag(k !in m))
    case DoDelete(k) => (m - {k}, Flag(k in m))
    case DoExpand(_) => (m, Status)
    case DoResize(_) => (m, Status)
    case DoRehash(_) => (m, Status)
  }

  lemma StepRefines(hash: Key -> nat, s: State, op: Op, m: map<Key, Val>)
    requires Inv(hash, s) && Represents(hash, s, m)
    ensures var (s', a) := Step(hash, s, op); var (m', b) := MapStep(m, op);
            Inv(hash, s') && s'.iterators == s.iterators && Represents(hash, s', m') && a == b
  {
    hide Inv, Get, Find, Add, Replace, Delete, Expand, Resize, Rehash;
    match op
    case DoFind(k) => FindOk(hash, s, k);
    case DoAdd(k, v, c) => AddOk(hash, s, k, v, c);
    case DoReplace(k, v, c) => ReplaceOk(hash, s, k, v, c);
    case DoDelete(k) => DeleteOk(hash, s, k);
    case DoExpand(size) => ExpandOk(hash, s, size);
    case DoResize(c) => ResizeOk(hash, s, c);
    case DoRehash(n) => RehashCompletes(hash, s, n);
  }

  lemma StepKeepsInv(hash: Key -> nat, s: State, op: Op)
    requires Inv(hash, s)
    ensures Inv(hash, Step(hash, s, op).0) && Step(hash, s, op).0.iterators == s.iterators
  {
    hide Inv, Get, Find, Add, Replace, Delete, Expand, Resize, Rehash;
    match op
    case DoFind(k) => FindOk(hash, s, k);
    case DoAdd(k, v, c) => AddOk(hash, s, k, v, c);
    case DoReplace(k, v, c) => ReplaceOk(hash, s, k, v, c);
    case DoDelete(k) => DeleteOk(hash, s, k);
    case DoExpand(size) => ExpandOk(hash, s, size);
    case DoResize(c) => ResizeOk(hash, s, c);
    case DoRehash(n) => RehashCompletes(hash, s, n);
  }

  ghost function Run(hash: Key -> nat, s: State, ops: seq<Op>): (State, seq<Answer>)
    requires Inv(hash, s)
    decreases |ops|
  {
    if ops == [] then (s, [])
    else
      StepKeepsInv(hash, s, ops[0]);
      var (s1, a) := Step(hash, s, ops[0]);
      var (s2, rest) := Run(hash, s1, ops[1..]);
      (s2, [a] + rest)
  }

  function MapRun(m: map<Key, Val>, ops: seq<Op>): (map<Key, Val>, seq<Answer>)
    decreases |ops|
  {
    if ops == [] then (m, [])
    else
      var (m1, a) := MapStep(m, ops[0]);
      var (m2, rest) := MapRun(m1, ops[1..]);
      (m2, [a] + rest)
  }

  /** Over any run of finds, adds, replaces, deletes, resizes and rehash steps, whatever else is
      resized and rehashed on the way, the dictionary gives the answers of the finite map and ends up
      standing for it. */
  lemma {:induction false} RunRefines(hash: Key -> nat, s: State, ops: seq<Op>, m: map<Key, Val>)
    requires Inv(hash, s) && Represents(hash, s, m)
    ensures var (s', answers) := Run(hash, s, ops);
            && Inv(hash, s') && Represents(hash, s', MapRun(m, ops).0)
            && answers == MapRun(m, ops).1
    decreases |ops|
  {
    if ops != [] {
      StepRefines(hash, s, ops[0], m);
      RunRefines(hash, Step(hash, s, ops[0]).0, ops[1..], MapStep(m, ops[0]).0);
    }
  }
}
