/** dict.c: the dictionary object. Every method is proved to do what `DictSpec` says, and to keep a
    ghost finite map up to date. Entries are records inside their chain; an entry pointer is the place
    of the entry (table, bucket, position). */
module Dict {
  import opened Bytes
  import opened DictSpec
  import opened DictProofs
  import opened DictIteration

  /** `dictEntry *`. */
  datatype Place = Null | At(table: nat, bucket: nat, pos: nat)

  /** `_dictNextPower`, for sizes below LONG_MAX. */
  method NextPowerOf(size: nat) returns (i: nat)
    ensures i == NextPower(size) && i >= size && IsPow2(i)
  {
    assert IsPow2(2) && IsPow2(4);
    i := INITIAL_SIZE;
    while i < size
      invariant i >= 1 && IsPow2(i) && NextPowerFrom(i, size) == NextPower(size)
      decreases size - i
    {
      Pow2Doubles(i);
      i := i * 2;
    }
  }

  /** The loop along the `next` pointers that compares keys. */
  method SearchChain(c: Chain, k: Key) returns (found: bool, pos: nat)
    ensures found <==> InChain(c, k)
    ensures found ==> pos < |c| && c[pos] == Entry(k, ChainGet(c, k).value)
    ensures found ==> ChainRemove(c, k) == c[..pos] + c[pos + 1..]
    ensures found ==> forall v :: ChainSet(c, k, v) == c[pos := Entry(k, v)]
  {
    pos := 0;
    while pos < |c|
      invariant pos <= |c|
      invariant forall j :: 0 <= j < pos ==> c[j].key != k
    {
      if c[pos].key == k {
        FirstPlace(c, k, pos);
        return true, pos;
      }
      pos := pos + 1;
    }
    NotInChain(c, k);
    return false, pos;
  }

  /** The first place of a key in a chain. */
  ghost predicate IsFirst(c: Chain, k: Key, pos: nat) {
    pos < |c| && c[pos].key == k && forall j :: 0 <= j < pos ==> c[j].key != k
  }

  lemma {:induction false} FirstFound(c: Chain, k: Key, pos: nat)
    requires IsFirst(c, k, pos)
    ensures InChain(c, k) && c[pos] == Entry(k, ChainGet(c, k).value)
  {
    if pos > 0 { FirstFound(c[1..], k, pos - 1); }
  }

  lemma {:induction false} FirstRemoved(c: Chain, k: Key, pos: nat)
    requires IsFirst(c, k, pos)
    ensures ChainRemove(c, k) == c[..pos] + c[pos + 1..]
  {
    if pos > 0 {
      FirstRemoved(c[1..], k, pos - 1);
      assert c[..pos] == [c[0]] + c[1..][..pos - 1];
      assert c[1..][pos..] == c[pos + 1..];
    }
  }

  lemma {:induction false} FirstSet(c: Chain, k: Key, pos: nat, v: Val)
    requires IsFirst(c, k, pos)
    ensures ChainSet(c, k, v) == c[pos := Entry(k, v)]
  {
    if pos > 0 {
      FirstSet(c[1..], k, pos - 1, v);
      assert c == [c[0]] + c[1..];
    }
  }

  lemma FirstPlace(c: Chain, k: Key, pos: nat)
    requires IsFirst(c, k, pos)
    ensures InChain(c, k) && c[pos] == Entry(k, ChainGet(c, k).value)
    ensures ChainRemove(c, k) == c[..pos] + c[pos + 1..]
    ensures forall v :: ChainSet(c, k, v) == c[pos := Entry(k, v)]
  {
    FirstFound(c, k, pos);
    FirstRemoved(c, k, pos);
    forall v { FirstSet(c, k, pos, v); }
  }

  /** What the methods need to know of the invariant to index the tables. */
  lemma Facts(hash: Key -> nat, s: State)
    requires Inv(hash, s)
    ensures |s.ht0.buckets| > 0 ==> IsPow2(|s.ht0.buckets|)
    ensures s.Rehashing() ==> |s.ht0.buckets| > 0 && |s.ht1.buckets| > 0 && IsPow2(|s.ht1.buckets|)
    ensures s.Rehashing() ==> 0 <= s.rehashidx <= |s.ht0.buckets|
    ensures !s.Rehashing() ==> s.ht1 == NO_TABLE
    ensures |s.ht0.buckets| == 0 ==> forall k :: Get(hash, s, k).None?
    ensures s.ht0.used >= 0 && s.iterators >= 0
  {
  }

  lemma SameAnswers(hash: Key -> nat, s: State, s': State, m: map<Key, Val>)
    requires Represents(hash, s, m) && forall k :: Get(hash, s', k) == Get(hash, s, k)
    ensures Represents(hash, s', m)
  {
  }

  lemma UnlinkRepresents(hash: Key -> nat, s: State, m: map<Key, Val>, k: Key)
    requires Inv(hash, s) && Represents(hash, s, m)
    ensures Inv(hash, Unlink(hash, s, k)) && Represents(hash, Unlink(hash, s, k), m - {k})
  {
    UnlinkOk(hash, s, k);
    hide Inv, Get, Unlink;
  }

  lemma AnswerIs(hash: Key -> nat, s: State, m: map<Key, Val>, k: Key)
    requires Represents(hash, s, m)
    ensures Get(hash, s, k) == if k in m then Some(m[k]) else None
  {
  }

  class Dictionary {
    const hash: Key -> nat
    var ht0: Table
    var ht1: Table
    var rehashidx: int
    var iterators: int
    ghost var Contents: map<Key, Val>

    ghost function Now(): State
      reads this
    {
      State(ht0, ht1, rehashidx, iterators)
    }

    ghost predicate Valid()
      reads this
    {
      Inv(hash, Now()) && Represents(hash, Now(), Contents)
    }

    /** `dictCreate`. */
    constructor (hash: Key -> nat)
      ensures Valid() && Contents == map[] && this.hash == hash
    {
      this.hash := hash;
      ht0, ht1, rehashidx, iterators, Contents := NO_TABLE, NO_TABLE, -1, 0, map[];
    }

    /** `dictExpand`: refused during a rehash or when the elements would outnumber the size asked for. */
    method ExpandTo(size: nat) returns (ok: bool)
      requires Valid()
      modifies this`ht0, this`ht1, this`rehashidx
      ensures Valid() && Now() == Expand(old(Now()), size)
      ensures ok <==> !old(Now()).Rehashing() && old(ht0).used <= size
    {
      ExpandOk(hash, Now(), size);
      var realsize := NextPowerOf(size);
      if rehashidx != -1 || ht0.used > size { return false; }
      var n := NewTable(realsize);
      if |ht0.buckets| == 0 {
        ht0 := n;
        return true;
      }
      ht1 := n;
      rehashidx := 0;
      return true;
    }

    /** `dictResize`. */
    method ResizeToFit(canResize: bool) returns (ok: bool)
      requires Valid()
      modifies this`ht0, this`ht1, this`rehashidx
      ensures Valid() && Now() == Resize(old(Now()), canResize)
      ensures ok <==> canResize && !old(Now()).Rehashing()
    {
      if !canResize || rehashidx != -1 { return false; }
      var minimal := ht0.used;
      if minimal < INITIAL_SIZE { minimal := INITIAL_SIZE; }
      ok := ExpandTo(minimal);
    }

    /** Moves the entries of one bucket, first to last, to the head of their new buckets (the inner loop
        of `dictRehash`). */
    method MoveBucket()
      requires ht0.used != 0 && 0 <= rehashidx < |ht0.buckets| && FirstUsed(ht0.buckets, rehashidx) == rehashidx
      requires |ht1.buckets| > 0 && IsPow2(|ht1.buckets|)
      modifies this`ht0, this`ht1, this`rehashidx
      ensures Now() == RehashOne(hash, old(Now()))
    {
      var de := ht0.buckets[rehashidx];
      ghost var c, t1, u0, u1 := de, ht1.buckets, ht0.used, ht1.used;
      ghost var old0 := ht0.buckets;
      while de != []
        invariant |ht1.buckets| == |t1| && ht0.buckets == old0 && rehashidx == old(rehashidx)
        invariant MoveChain(hash, de, ht1.buckets) == MoveChain(hash, c, t1)
        invariant ht0.used == u0 - |c| + |de| && ht1.used == u1 + |c| - |de|
        decreases |de|
      {
        var h := BitAnd(HashOf(hash, de[0].key), |ht1.buckets| - 1);
        MaskIsMod(HashOf(hash, de[0].key), |ht1.buckets|);
        ht1 := Table(ht1.buckets[h := [de[0]] + ht1.buckets[h]], ht1.used + 1);
        ht0 := Table(ht0.buckets, ht0.used - 1);
        de := de[1..];
      }
      ht0 := Table(ht0.buckets[rehashidx := []], ht0.used);
      rehashidx := rehashidx + 1;
    }

    /** One turn of the loop of `dictRehash`; true when the rehash is over. */
    method RehashTurn() returns (over: bool)
      requires Valid() && rehashidx != -1
      modifies this`ht0, this`ht1, this`rehashidx
      ensures Valid() && Now() == RehashOne(hash, old(Now())) && over == !Now().Rehashing()
    {
      ghost var before := Now();
      RehashOneOk(hash, before);
      Facts(hash, before);
      SameAnswers(hash, before, RehashOne(hash, before), Contents);
      if ht0.used != 0 { ScanInBounds(hash, before); }
      hide Inv, Represents, Get;
      over := ht0.used == 0;
      if over {
        ht0 := ht1;
        ht1 := NO_TABLE;
        rehashidx := -1;
      } else {
        SkipEmpty();
        MoveBucket();
      }
    }

    /** `dictRehash(d, n)`; the result says whether a rehash is still under way. */
    method RehashSteps(n: nat) returns (more: bool)
      requires Valid()
      modifies this`ht0, this`ht1, this`rehashidx
      ensures Valid() && Now() == Rehash(hash, old(Now()), n)
      ensures more <==> Now().Rehashing()
    {
      if rehashidx == -1 { return false; }
      var left := n;
      while left > 0
        invariant Valid() && rehashidx != -1 && Rehash(hash, Now(), left) == Rehash(hash, old(Now()), n)
      {
        var over := RehashTurn();
        left := left - 1;
        if over { return false; }
      }
      return true;
    }

    /** The scan for the next non-empty bucket. */
    method SkipEmpty()
      requires 0 <= rehashidx <= |ht0.buckets| && FirstUsed(ht0.buckets, rehashidx) < |ht0.buckets|
      modifies this`rehashidx
      ensures rehashidx == FirstUsed(ht0.buckets, old(rehashidx)) == FirstUsed(ht0.buckets, rehashidx)
    {
      ghost var first := FirstUsed(ht0.buckets, rehashidx);
      while ht0.buckets[rehashidx] == []
        invariant 0 <= rehashidx <= first && FirstUsed(ht0.buckets, rehashidx) == first
        decreases first - rehashidx
      {
        rehashidx := rehashidx + 1;
      }
    }

    /** `_dictRehashStep`, called only during a rehash. */
    method RehashStep()
      requires Valid()
      modifies this`ht0, this`ht1, this`rehashidx
      ensures Valid() && Now() == MaybeStep(hash, old(Now()))
    {
      if rehashidx != -1 && iterators == 0 {
        RehashOneOk(hash, Now());
        assert Rehash(hash, RehashOne(hash, Now()), 0) == RehashOne(hash, Now());
        var more := RehashSteps(1);
      }
    }

    /** `_dictExpandIfNeeded`: it never fails. */
    method ExpandIfFull(canResize: bool) returns (ok: bool)
      requires Valid()
      modifies this`ht0, this`ht1, this`rehashidx
      ensures Valid() && ok && Now() == ExpandIfNeeded(old(Now()), canResize) && |ht0.buckets| > 0
    {
      ExpandIfNeededOk(hash, Now(), canResize);
      if rehashidx != -1 { return true; }
      if |ht0.buckets| == 0 {
        ok := ExpandTo(INITIAL_SIZE);
        return;
      }
      if ht0.used >= |ht0.buckets| && (canResize || ht0.used / |ht0.buckets| > FORCE_RESIZE_RATIO) {
        ok := ExpandTo((if |ht0.buckets| > ht0.used then |ht0.buckets| else ht0.used) * 2);
        return;
      }
      return true;
    }

    /** The loop over the two tables shared by `dictFind`, `dictGenericDelete` and `_dictKeyIndex`:
        the entry of the key, or the last bucket index computed. */
    method Locate(k: Key) returns (place: Place, idx: nat)
      requires Valid() && |ht0.buckets| > 0
      ensures place.Null? <==> k !in Contents
      ensures place.At? ==> place.table <= 1
      ensures place.At? ==> var t := if place.table == 0 then ht0.buckets else ht1.buckets;
        && (place.table == 0 <==> InTable(hash, ht0.buckets, k)) && InTable(hash, t, k)
        && place.bucket == Slot(hash, k, |t|) && place.pos < |t[place.bucket]|
        && t[place.bucket][place.pos] == Entry(k, Contents[k])
        && ChainRemove(t[place.bucket], k) == t[place.bucket][..place.pos] + t[place.bucket][place.pos + 1..]
        && forall v :: ChainSet(t[place.bucket], k, v) == t[place.bucket][place.pos := Entry(k, v)]
      ensures place.Null? ==> idx == Slot(hash, k, if rehashidx != -1 then |ht1.buckets| else |ht0.buckets|)
    {
      Facts(hash, Now());
      AnswerIs(hash, Now(), Contents, k);
      hide Inv, Represents, IsPow2, BitAnd, HashOf, ChainGet, ChainSet, ChainRemove;
      var h := HashOf(hash, k);
      idx := BitAnd(h, |ht0.buckets| - 1);
      MaskIsMod(h, |ht0.buckets|);
      var found, pos := SearchChain(ht0.buckets[idx], k);
      if found { return At(0, idx, pos), idx; }
      if rehashidx == -1 { return Null, idx; }
      idx := BitAnd(h, |ht1.buckets| - 1);
      MaskIsMod(h, |ht1.buckets|);
      found, pos := SearchChain(ht1.buckets[idx], k);
      if found { return At(1, idx, pos), idx; }
      return Null, idx;
    }

    /** Links a new entry at the head of its bucket (the end of `dictAddRaw`). */
    method InsertNew(k: Key, v: Val, idx: nat)
      requires Valid() && k !in Contents && |ht0.buckets| > 0
      requires idx == Slot(hash, k, if rehashidx != -1 then |ht1.buckets| else |ht0.buckets|)
      modifies this`ht0, this`ht1, this`Contents
      ensures Valid() && Contents == old(Contents)[k := v]
      ensures Now() == if rehashidx != -1 then old(Now()).(ht1 := Prepend(hash, old(ht1), Entry(k, v)))
                       else old(Now()).(ht0 := Prepend(hash, old(ht0), Entry(k, v)))
    {
      AnswerIs(hash, Now(), Contents, k);
      InsertOk(hash, Now(), Entry(k, v));
      if rehashidx != -1 {
        ht1 := Table(ht1.buckets[idx := [Entry(k, v)] + ht1.buckets[idx]], ht1.used + 1);
      } else {
        ht0 := Table(ht0.buckets[idx := [Entry(k, v)] + ht0.buckets[idx]], ht0.used + 1);
      }
      Contents := Contents[k := v];
      hide Inv, Get;
    }

    /** `dictAdd`: `dictAddRaw` and `dictSetVal`. */
    method AddEntry(k: Key, v: Val, canResize: bool) returns (added: bool)
      requires Valid()
      modifies this`ht0, this`ht1, this`rehashidx, this`Contents
      ensures Valid() && (Now(), added) == Add(hash, old(Now()), k, v, canResize) && |ht0.buckets| > 0
      ensures added == (k !in old(Contents))
      ensures Contents == if added then old(Contents)[k := v] else old(Contents)
    {
      ghost var before := Now();
      if rehashidx != -1 { RehashStep(); }
      var ok := ExpandIfFull(canResize);
      assert Now() == ExpandIfNeeded(MaybeStep(hash, before), canResize);
      Facts(hash, Now());
      AnswerIs(hash, Now(), Contents, k);
      hide Inv, Represents, Get, MaybeStep, ExpandIfNeeded;
      var place, idx := Locate(k);
      added := place.Null?;
      if added { InsertNew(k, v, idx); }
    }

    /** `dictSetVal` on the entry at a place `Locate` found. */
    method StoreAt(place: Place, k: Key, v: Val)
      requires Valid() && k in Contents && place.At? && place.table <= 1
      requires var t := if place.table == 0 then ht0.buckets else ht1.buckets;
        && (place.table == 0 <==> InTable(hash, ht0.buckets, k)) && InTable(hash, t, k)
        && place.bucket == Slot(hash, k, |t|) && place.pos < |t[place.bucket]|
        && forall v :: ChainSet(t[place.bucket], k, v) == t[place.bucket][place.pos := Entry(k, v)]
      modifies this`ht0, this`ht1, this`Contents
      ensures Valid() && Now() == Assign(hash, old(Now()), k, v) && Contents == old(Contents)[k := v]
    {
      AssignOk(hash, Now(), k, v);
      var b, p := place.bucket, place.pos;
      if place.table == 0 {
        ht0 := ht0.(buckets := ht0.buckets[b := ht0.buckets[b][p := Entry(k, v)]]);
      } else {
        ht1 := ht1.(buckets := ht1.buckets[b := ht1.buckets[b][p := Entry(k, v)]]);
      }
      Contents := Contents[k := v];
    }

    /** `dictReplace`: true when the key was added from scratch. */
    method ReplaceEntry(k: Key, v: Val, canResize: bool) returns (added: bool)
      requires Valid()
      modifies this`ht0, this`ht1, this`rehashidx, this`Contents
      ensures Valid() && (Now(), added) == Replace(hash, old(Now()), k, v, canResize)
      ensures added == (k !in old(Contents)) && Contents == old(Contents)[k := v]
    {
      added := AddEntry(k, v, canResize);
      if added { return true; }
      MaybeStepOk(hash, Now());
      if rehashidx != -1 { RehashStep(); }
      var place, idx := Locate(k);
      StoreAt(place, k, v);
      return false;
    }

    /** Unlinks the entry at a place `Locate` found. */
    method UnlinkAt(place: Place, k: Key)
      requires Valid() && place.At? && place.table <= 1
      requires var t := if place.table == 0 then ht0.buckets else ht1.buckets;
        && (place.table == 0 <==> InTable(hash, ht0.buckets, k)) && InTable(hash, t, k)
        && place.bucket == Slot(hash, k, |t|) && place.pos < |t[place.bucket]|
        && ChainRemove(t[place.bucket], k) == t[place.bucket][..place.pos] + t[place.bucket][place.pos + 1..]
      modifies this`ht0, this`ht1, this`Contents
      ensures Valid() && Now() == Unlink(hash, old(Now()), k) && Contents == old(Contents) - {k}
    {
      UnlinkRepresents(hash, Now(), Contents, k);
      hide Inv, Get, Represents, InTable;
      var b, p := place.bucket, place.pos;
      if place.table == 0 {
        ht0 := Table(ht0.buckets[b := ht0.buckets[b][..p] + ht0.buckets[b][p + 1..]], ht0.used - 1);
      } else {
        ht1 := Table(ht1.buckets[b := ht1.buckets[b][..p] + ht1.buckets[b][p + 1..]], ht1.used - 1);
      }
      Contents := Contents - {k};
    }

    /** `dictGenericDelete`: true when the key was there. */
    method DeleteEntry(k: Key) returns (deleted: bool)
      requires Valid()
      modifies this`ht0, this`ht1, this`rehashidx, this`Contents
      ensures Valid() && (Now(), deleted) == Delete(hash, old(Now()), k)
      ensures deleted == (k in old(Contents)) && Contents == old(Contents) - {k}
    {
      ghost var before := Now();
      Facts(hash, before);
      AnswerIs(hash, before, Contents, k);
      if |ht0.buckets| == 0 { return false; }
      MaybeStepOk(hash, before);
      if rehashidx != -1 { RehashStep(); }
      assert Now() == MaybeStep(hash, before);
      AnswerIs(hash, Now(), Contents, k);
      hide Inv, Represents, Get, MaybeStep;
      var place, idx := Locate(k);
      deleted := place.At?;
      if deleted {
        UnlinkAt(place, k);
      } else {
        NothingToUnlink(hash, Now(), Contents, k);
      }
    }

    /** `dictFind` and `dictGetVal`. */
    method FindValue(k: Key) returns (r: Option<Val>)
      requires Valid()
      modifies this`ht0, this`ht1, this`rehashidx
      ensures Valid() && (Now(), r) == Find(hash, old(Now()), k)
      ensures r == if k in Contents then Some(Contents[k]) else None
    {
      FindOk(hash, Now(), k);
      if |ht0.buckets| == 0 {
        return None;
      }
      MaybeStepOk(hash, Now());
      if rehashidx != -1 { RehashStep(); }
      var place, idx := Locate(k);
      assert Get(hash, Now(), k) == if k in Contents then Some(Contents[k]) else None;
      if place.Null? { return None; }
      var t: seq<Chain> := if place.table == 0 then ht0.buckets else ht1.buckets;
      return Some(t[place.bucket][place.pos].val);
    }
  }

  /** `dictIterator`, created by `dictGetSafeIterator`. */
  class SafeIterator {
    const d: Dictionary
    var table: int
    var index: int
    var entry: Option<Key>
    var nextEntry: Option<Key>

    ghost function Now(): Iter
      reads this
    {
      Iter(table, index, true, entry, nextEntry)
    }

    ghost predicate Valid()
      reads this, d
    {
      d.Valid() && ItOk(d.Now(), Now())
    }

    constructor (d: Dictionary)
      requires d.Valid()
      ensures this.d == d && Valid() && Now() == FRESH
    {
      this.d := d;
      table, index, entry, nextEntry := 0, -1, None, None;
    }

    /** The first step of a safe iterator freezes the migration of buckets. */
    method Register()
      requires Valid() && entry.None? && !Started(Now())
      modifies d`iterators
      ensures d.Valid() && d.Now() == old(d.Now()).(iterators := old(d.iterators) + 1) && d.iterators > 0
    {
      Facts(d.hash, d.Now());
      InvIgnoresIterators(d.hash, d.Now(), d.iterators + 1);
      SameAnswers(d.hash, d.Now(), d.Now().(iterators := d.iterators + 1), d.Contents);
      hide Inv, Represents;
      d.iterators := d.iterators + 1;
    }

    /** The branch of `dictNext` without a current entry: go to the next bucket, of the second table
        when the first one is through and a rehash is under way. */
    method NextBucket() returns (over: bool)
      requires Valid() && entry.None?
      modifies this`table, this`index, this`entry, d`iterators
      ensures d.Valid() && (over, d.Now(), Now().(entry := None)) == Enter(old(d.Now()), old(Now()))
      ensures if over then entry.None?
              else 0 <= index < |BucketsOf(d.Now(), table)| && entry == HeadKey(BucketsOf(d.Now(), table)[index])
    {
      Facts(d.hash, d.Now());
      hide Inv, HeadKey;
      if index == -1 && table == 0 { Register(); }
      index := index + 1;
      var buckets: seq<Chain> := if table == 0 then d.ht0.buckets else d.ht1.buckets;
      if index >= |buckets| {
        if d.rehashidx != -1 && table == 0 {
          table, index, buckets := 1, 0, d.ht1.buckets;
        } else {
          return true;
        }
      }
      entry := HeadKey(buckets[index]);
      return false;
    }

    /** `dictNext`: the key of the entry returned. */
    method Advance() returns (r: Option<Key>)
      requires Valid()
      modifies this, d`iterators
      ensures Valid() && (d.Now(), Now(), r) == Next(d.hash, old(d.Now()), old(Now()))
      ensures r.Some? ==> r.value in d.Contents
    {
      OnwardIs(d.hash, d.Now(), Now(), d.Contents);
      hide Inv, Represents, ItOk, Next, Dictionary.Valid, Onward;
      r := Loop();
    }

    /** The loop of `dictNext`. */
    method Loop() returns (r: Option<Key>)
      requires d.Valid() && Sound(d.hash, d.Now(), Now())
      modifies this, d`iterators
      ensures d.Valid() && Sound(d.hash, d.Now(), Now())
      ensures (d.Now(), Now(), r) == Onward(d.hash, old(d.Now()), old(Now()))
    {
      hide Inv, Represents, ItOk, Started, Succ, HeadKey, Enter, ToGo, Dictionary.Valid, Onward;
      ghost var goal := Onward(d.hash, d.Now(), Now());
      while true
        invariant d.Valid() && Sound(d.hash, d.Now(), Now()) && Onward(d.hash, d.Now(), Now()) == goal
        decreases ToGo(d.Now(), Now()), if entry.Some? then 1 else 0
      {
        ghost var s, it := d.Now(), Now();
        if entry.None? {
          var over := NextBucket();
          EnterMeans(d.hash, s, it);
          if over { return None; }
        } else {
          FollowMeans(d.hash, s, it);
          entry := nextEntry;
        }
        if entry.Some? {
          nextEntry := Succ((if table == 0 then d.ht0.buckets else d.ht1.buckets)[index], entry.value);
          return entry;
        }
      }
    }

    /** `dictReleaseIterator`. */
    method Release()
      requires Valid()
      modifies d`iterators
      ensures d.Valid() && d.Contents == old(d.Contents)
      ensures d.Now() == old(d.Now()).(iterators := old(d.iterators) - if Started(Now()) then 1 else 0)
    {
      if !(index == -1 && table == 0) {
        InvIgnoresIterators(d.hash, d.Now(), d.iterators - 1);
        SameAnswers(d.hash, d.Now(), d.Now().(iterators := d.iterators - 1), d.Contents);
        d.iterators := d.iterators - 1;
      }
    }
  }

  // ---- the ways a step of `dictNext` goes on

  /** The bucket `dictNext` goes to when there is no current entry, unless the tables are through. */
  ghost function Enter(s: State, it: Iter): (r: (bool, State, Iter)) {
    var s1 := if Started(it) then s else s.(iterators := s.iterators + 1);
    var it1 := it.(index := it.index + 1, entry := None);
    if it1.index < |BucketsOf(s, it.table)| then (false, s1, it1)
    else if s.Rehashing() && it.table == 0 then (false, s1, it1.(table := 1, index := 0))
    else (true, s1, it1)
  }

  ghost predicate Sound(hash: Key -> nat, s: State, it: Iter) {
    Inv(hash, s) && ItOk(s, it)
  }

  /** `Next` where it is defined. */
  ghost function Onward(hash: Key -> nat, s: State, it: Iter): (State, Iter, Option<Key>) {
    if Sound(hash, s, it) then Next(hash, s, it) else (s, it, None)
  }

  /** How many buckets are still to be entered. */
  ghost function ToGo(s: State, it: Iter): nat {
    var n := |BucketsOf(s, it.table)| - it.index;
    (if n < 0 then 0 else n) + if it.table == 0 then |s.ht1.buckets| + 1 else 0
  }

  lemma OnwardIs(hash: Key -> nat, s: State, it: Iter, m: map<Key, Val>)
    requires Inv(hash, s) && ItOk(s, it) && Represents(hash, s, m)
    ensures Sound(hash, s, it) && Onward(hash, s, it) == Next(hash, s, it)
    ensures Next(hash, s, it).2.Some? ==> Next(hash, s, it).2.value in m
  {
    NextOk(hash, s, it, 0);
    var r := Next(hash, s, it).2;
    if r.Some? { AnswerIs(hash, s, m, r.value); }
  }

  /** A bucket is entered at its head; nothing is returned when the tables are through. */
  lemma EnterMeans(hash: Key -> nat, s: State, it: Iter)
    requires Sound(hash, s, it) && it.entry.None? && it.safe
    ensures var (over, s1, it1) := Enter(s, it);
            && Sound(hash, s1, it1)
            && if over then Onward(hash, s, it) == (s1, it1, None)
               else
                 && ToGo(s1, it1) < ToGo(s, it)
                 && 0 <= it1.index < |BucketsOf(s1, it1.table)|
                 && var c := BucketsOf(s1, it1.table)[it1.index];
                    match HeadKey(c)
                    case None => Onward(hash, s, it) == Onward(hash, s1, it1)
                    case Some(k) =>
                      var it2 := it1.(entry := Some(k), nextEntry := Succ(c, k));
                      Sound(hash, s1, it2) && Onward(hash, s, it) == (s1, it2, Some(k))
  {
    NextEnters(hash, s, it);
    var (over, s1, it1) := Enter(s, it);
    if !over { BucketEnters(hash, s1, it1); }
  }

  /** The saved next entry is followed; without one the bucket is through. */
  lemma FollowMeans(hash: Key -> nat, s: State, it: Iter)
    requires Sound(hash, s, it) && it.entry.Some?
    ensures 0 <= it.index < |BucketsOf(s, it.table)|
    ensures match it.nextEntry
            case None =>
              var it1 := it.(entry := None);
              Sound(hash, s, it1) && ToGo(s, it1) == ToGo(s, it) && Onward(hash, s, it) == Onward(hash, s, it1)
            case Some(n) =>
              var it1 := it.(entry := Some(n), nextEntry := Succ(BucketsOf(s, it.table)[it.index], n));
              Sound(hash, s, it1) && Onward(hash, s, it) == (s, it1, Some(n))
  {
    var t := BucketsOf(s, it.table);
    assert ChainOk(hash, t[it.index], it.index, |t|);
    if it.nextEntry.Some? { FromKeySplits(t[it.index], it.nextEntry.value, 0); }
  }

  lemma NextEnters(hash: Key -> nat, s: State, it: Iter)
    requires Inv(hash, s) && ItOk(s, it) && it.entry.None? && it.safe
    ensures var (over, s1, it1) := Enter(s, it);
            && Inv(hash, s1) && ItOk(s1, it1)
            && if over then Next(hash, s, it) == (s1, it1, None)
               else
                 && ToGo(s1, it1) < ToGo(s, it) && 0 <= it1.index < |BucketsOf(s1, it1.table)|
                 && Next(hash, s, it) == Bucket(hash, s1, it1)
  {
    InvIgnoresIterators(hash, s, s.iterators + 1);
  }

  lemma BucketEnters(hash: Key -> nat, s: State, it: Iter)
    requires Inv(hash, s) && ItOk(s, it) && 0 <= it.index < |BucketsOf(s, it.table)| && it.entry.None?
    ensures var c := BucketsOf(s, it.table)[it.index];
            Bucket(hash, s, it)
            == if c == [] then Next(hash, s, it)
               else (s, it.(entry := Some(c[0].key), nextEntry := Succ(c, c[0].key)), Some(c[0].key))
    ensures var c := BucketsOf(s, it.table)[it.index];
            c != [] ==> ItOk(s, it.(entry := HeadKey(c), nextEntry := Succ(c, c[0].key)))
  {
    var t := BucketsOf(s, it.table);
    assert ChainOk(hash, t[it.index], it.index, |t|);
    if t[it.index] != [] { FromKeySplits(t[it.index], t[it.index][0].key, 0); }
  }

  lemma NothingToUnlink(hash: Key -> nat, s: State, m: map<Key, Val>, k: Key)
    requires Represents(hash, s, m) && k !in m
    ensures Unlink(hash, s, k) == s && m - {k} == m
  {
    assert Get(hash, s, k).None?;
  }
}
