/** The counts `used` of the two tables add up to the number of keys (`dictSize`). */
module DictSize {
  import opened Bytes
  import opened DictSpec
  import opened DictProofs

  ghost function ChainKeys(c: Chain): set<Key> {
    set i | 0 <= i < |c| :: c[i].key
  }

  ghost function AllKeys(t: seq<Chain>): set<Key> {
    if t == [] then {} else ChainKeys(t[0]) + AllKeys(t[1..])
  }

  lemma {:induction false} ChainKeysCount(c: Chain)
    requires forall j, j' :: 0 <= j < j' < |c| ==> c[j].key != c[j'].key
    ensures |ChainKeys(c)| == |c|
  {
    if c != [] {
      ChainKeysCount(c[1..]);
      assert ChainKeys(c) == {c[0].key} + ChainKeys(c[1..]) by {
        assert forall i :: 0 < i < |c| ==> c[i] == c[1..][i - 1];
        forall k | k in ChainKeys(c) && k != c[0].key
          ensures k in ChainKeys(c[1..])
        {
          var i :| 0 <= i < |c| && c[i].key == k;
          assert c[1..][i - 1].key == k;
        }
      }
    }
  }

  /** The buckets of a table from `off` on, as a sequence. */
  ghost predicate BucketsOk(hash: Key -> nat, t: seq<Chain>, off: nat, size: nat) {
    size > 0 && forall i :: 0 <= i < |t| ==> ChainOk(hash, t[i], off + i, size)
  }

  /** Different buckets have different keys, so the keys are as many as the entries. */
  lemma {:induction false} AllKeysCount(hash: Key -> nat, t: seq<Chain>, off: nat, size: nat)
    requires BucketsOk(hash, t, off, size)
    ensures |AllKeys(t)| == Total(t)
    ensures forall k :: k in AllKeys(t) ==> off <= Slot(hash, k, size)
  {
    if t != [] {
      assert BucketsOk(hash, t[1..], off + 1, size) by {
        forall i | 0 <= i < |t| - 1 ensures ChainOk(hash, t[1..][i], off + 1 + i, size) {
          assert t[1..][i] == t[i + 1] && ChainOk(hash, t[i + 1], off + (i + 1), size);
        }
      }
      AllKeysCount(hash, t[1..], off + 1, size);
      assert ChainOk(hash, t[0], off + 0, size);
      ChainKeysCount(t[0]);
      hide Slot;
      assert ChainKeys(t[0]) !! AllKeys(t[1..]);
    }
  }

  lemma {:induction false} KeysOfBucket(t: seq<Chain>, k: Key)
    ensures k in AllKeys(t) <==> exists i :: 0 <= i < |t| && k in ChainKeys(t[i])
  {
    if t != [] {
      KeysOfBucket(t[1..], k);
      if k in AllKeys(t[1..]) {
        var i :| 0 <= i < |t| - 1 && k in ChainKeys(t[1..][i]);
        assert k in ChainKeys(t[i + 1]);
      }
      if i :| 0 < i < |t| && k in ChainKeys(t[i]) { assert k in ChainKeys(t[1..][i - 1]); }
    }
  }

  lemma KeysAreInTable(hash: Key -> nat, t: seq<Chain>, k: Key)
    requires TableOk(hash, t)
    ensures k in AllKeys(t) <==> InTable(hash, t, k)
  {
    KeysOfBucket(t, k);
    hide Slot, AllKeys;
    if i :| 0 <= i < |t| && k in ChainKeys(t[i]) {
      assert ChainOk(hash, t[i], i, |t|);
      var j :| 0 <= j < |t[i]| && t[i][j].key == k;
      assert Slot(hash, k, |t|) == i;
      AtInChain(t[i], j);
    }
    if InTable(hash, t, k) {
      var j := InChainAt(t[Slot(hash, k, |t|)], k);
      assert k in ChainKeys(t[Slot(hash, k, |t|)]);
    }
  }

  lemma TableCount(hash: Key -> nat, t: seq<Chain>)
    requires TableOk(hash, t)
    ensures |AllKeys(t)| == Total(t)
  {
    if t != [] {
      assert BucketsOk(hash, t, 0, |t|);
      AllKeysCount(hash, t, 0, |t|);
    }
  }

  lemma KeyIsOnce(hash: Key -> nat, s: State, m: map<Key, Val>, k: Key)
    requires Inv(hash, s) && Represents(hash, s, m)
    ensures k in m <==> k in AllKeys(s.ht0.buckets) || k in AllKeys(s.ht1.buckets)
    ensures !(k in AllKeys(s.ht0.buckets) && k in AllKeys(s.ht1.buckets))
  {
    KeysAreInTable(hash, s.ht0.buckets, k);
    KeysAreInTable(hash, s.ht1.buckets, k);
    assert Get(hash, s, k) == if k in m then Some(m[k]) else None;
    hide TableOk, AllKeys, TableGet;
  }

  /** A set made of two parts without common element. */
  lemma CountBoth<T>(c: set<T>, a: set<T>, b: set<T>)
    requires c == a + b && a !! b
    ensures |c| == |a| + |b|
  {
  }

  lemma KeySets(hash: Key -> nat, s: State, m: map<Key, Val>)
    requires Inv(hash, s) && Represents(hash, s, m)
    ensures m.Keys == AllKeys(s.ht0.buckets) + AllKeys(s.ht1.buckets)
    ensures AllKeys(s.ht0.buckets) !! AllKeys(s.ht1.buckets)
  {
    hide *;
    forall k | k in m.Keys ensures k in AllKeys(s.ht0.buckets) + AllKeys(s.ht1.buckets) {
      KeyIsOnce(hash, s, m, k);
    }
    forall k | k in AllKeys(s.ht0.buckets) ensures k in m.Keys && k !in AllKeys(s.ht1.buckets) {
      KeyIsOnce(hash, s, m, k);
    }
    forall k | k in AllKeys(s.ht1.buckets) ensures k in m.Keys {
      KeyIsOnce(hash, s, m, k);
    }
  }

  /** `dictSize`, the sum of both counts, is the size of the map. */
  lemma SizeIsExact(hash: Key -> nat, s: State, m: map<Key, Val>)
    requires Inv(hash, s) && Represents(hash, s, m)
    ensures s.ht0.used + s.ht1.used == |m|
  {
    assert s.ht0.used == Total(s.ht0.buckets) && s.ht1.used == Total(s.ht1.buckets);
    assert TableOk(hash, s.ht0.buckets) && TableOk(hash, s.ht1.buckets);
    hide *;
    TableCount(hash, s.ht0.buckets);
    TableCount(hash, s.ht1.buckets);
    KeySets(hash, s, m);
    CountBoth(m.Keys, AllKeys(s.ht0.buckets), AllKeys(s.ht1.buckets));
  }
}
