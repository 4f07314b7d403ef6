/** dict.c on values: the two hash tables of a dictionary and what each operation does to them.
    Keys and values are void pointers in C: integers here, equal exactly when the dictionary's
    comparison function says so. The hash function is a parameter. */
module DictSpec {
  import opened Bytes

  type Key = int
  type Val = int

  const INITIAL_SIZE := 4        // DICT_HT_INITIAL_SIZE
  const FORCE_RESIZE_RATIO := 5  // dict_force_resize_ratio

  datatype Entry = Entry(key: Key, val: Val)

  /** A bucket: the entries along the `next` pointers, head first. */
  type Chain = seq<Entry>

  /** A `dictht`; its size is the number of buckets and its mask one less. */
  datatype Table = Table(buckets: seq<Chain>, used: int)

  const NO_TABLE := Table([], 0)

  datatype State = State(ht0: Table, ht1: Table, rehashidx: int, iterators: int) {
    predicate Rehashing() {
      rehashidx != -1
    }
  }

  /** A new dictionary (`_dictInit`). */
  const EMPTY := State(NO_TABLE, NO_TABLE, -1, 0)

  // ---- chains

  function HashOf(hash: Key -> nat, k: Key): nat {
    hash(k)
  }

  function Slot(hash: Key -> nat, k: Key, size: nat): (i: nat)
    requires size > 0
    ensures i < size
  {
    HashOf(hash, k) % size
  }

  function ChainGet(c: Chain, k: Key): Option<Val> {
    if c == [] then None else if c[0].key == k then Some(c[0].val) else ChainGet(c[1..], k)
  }

  predicate InChain(c: Chain, k: Key) {
    ChainGet(c, k).Some?
  }

  function ChainRemove(c: Chain, k: Key): Chain {
    if c == [] then [] else if c[0].key == k then c[1..] else [c[0]] + ChainRemove(c[1..], k)
  }

  function ChainSet(c: Chain, k: Key, v: Val): Chain {
    if c == [] then [] else if c[0].key == k then [Entry(k, v)] + c[1..] else [c[0]] + ChainSet(c[1..], k, v)
  }

  // ---- tables

  function TableGet(hash: Key -> nat, t: seq<Chain>, k: Key): Option<Val> {
    if |t| == 0 then None else ChainGet(t[Slot(hash, k, |t|)], k)
  }

  predicate InTable(hash: Key -> nat, t: seq<Chain>, k: Key) {
    TableGet(hash, t, k).Some?
  }

  function Total(t: seq<Chain>): nat {
    if t == [] then 0 else |t[0]| + Total(t[1..])
  }

  function GetFrom(hash: Key -> nat, t0: seq<Chain>, t1: seq<Chain>, k: Key): Option<Val> {
    if InTable(hash, t0, k) then TableGet(hash, t0, k) else TableGet(hash, t1, k)
  }

  /** What the dictionary answers for a key: the first table, then the second one. */
  function Get(hash: Key -> nat, s: State, k: Key): Option<Val> {
    GetFrom(hash, s.ht0.buckets, s.ht1.buckets, k)
  }

  // ---- indexing

  /** Bitwise and of two unsigned integers. */
  function BitAnd(x: nat, y: nat): nat {
    if x == 0 || y == 0 then 0 else 2 * BitAnd(x / 2, y / 2) + (x % 2) * (y % 2)
  }

  /** `h & sizemask` is the remainder by the size, because the size is a power of two. */
  lemma {:induction false} MaskIsMod(h: nat, size: nat)
    requires IsPow2(size)
    ensures BitAnd(h, size - 1) == h % size
    decreases size
  {
    if h != 0 && size != 1 {
      MaskIsMod(h / 2, size / 2);
      HalfMod(h, size / 2);
    }
  }

  lemma HalfMod(h: nat, half: nat)
    requires half > 0
    ensures h % (2 * half) == 2 * (h / 2 % half) + h % 2
  {
    var a := h / 2;
    var q, r := a / half, a % half;
    assert a == half * q + r;
    assert 2 * a == 2 * half * q + 2 * r;
    ModUnique(h, 2 * half, q, 2 * r + h % 2);
  }

  lemma ModUnique(h: nat, d: nat, q: nat, r: nat)
    requires d > 0 && h == d * q + r && r < d
    ensures h % d == r
  {
    var q', r' := h / d, h % d;
    assert h == d * q' + r';
    if q > q' { MulGap(d, q', q); } else if q < q' { MulGap(d, q, q'); }
  }

  lemma MulGap(d: nat, m: nat, n: nat)
    requires m < n
    ensures d * m + d <= d * n
  {
    assert d * n == d * m + d * (n - m);
    assert d * (n - m) == d + d * (n - m - 1);
  }

  // ---- what every operation keeps

  predicate IsPow2(n: nat) {
    n == 1 || (n >= 2 && n % 2 == 0 && IsPow2(n / 2))
  }

  ghost predicate ChainOk(hash: Key -> nat, c: Chain, i: nat, size: nat)
    requires size > 0
  {
    && (forall j :: 0 <= j < |c| ==> Slot(hash, c[j].key, size) == i)
    && (forall j, j' :: 0 <= j < j' < |c| ==> c[j].key != c[j'].key)
  }

  /** Every entry lies in the bucket its hash names, no key occurs twice, the size is a power of two. */
  ghost predicate TableOk(hash: Key -> nat, t: seq<Chain>) {
    && (|t| > 0 ==> IsPow2(|t|))
    && forall i :: 0 <= i < |t| ==> ChainOk(hash, t[i], i, |t|)
  }

  ghost predicate Disjoint(hash: Key -> nat, t0: seq<Chain>, t1: seq<Chain>) {
    forall k :: !(InTable(hash, t0, k) && InTable(hash, t1, k))
  }

  ghost predicate Inv(hash: Key -> nat, s: State) {
    && TableOk(hash, s.ht0.buckets) && TableOk(hash, s.ht1.buckets)
    && s.ht0.used == Total(s.ht0.buckets) && s.ht1.used == Total(s.ht1.buckets)
    && Disjoint(hash, s.ht0.buckets, s.ht1.buckets)
    && s.iterators >= 0
    && (!s.Rehashing() ==> s.ht1 == NO_TABLE)
    && (s.Rehashing() ==>
          && |s.ht0.buckets| > 0 && |s.ht1.buckets| > 0
          && 0 <= s.rehashidx <= |s.ht0.buckets|
          && forall i :: 0 <= i < s.rehashidx ==> s.ht0.buckets[i] == [])
  }

  /** The dictionary is the finite map `m`. */
  ghost predicate Represents(hash: Key -> nat, s: State, m: map<Key, Val>) {
    forall k :: Get(hash, s, k) == if k in m then Some(m[k]) else None
  }

  // ---- rehashing

  /** The first non-empty bucket from `i` on. */
  function FirstUsed(t: seq<Chain>, i: nat): (r: nat)
    requires i <= |t|
    ensures i <= r <= |t|
    ensures forall j :: i <= j < r ==> t[j] == []
    ensures r < |t| ==> t[r] != []
    decreases |t| - i
  {
    if i == |t| || t[i] != [] then i else FirstUsed(t, i + 1)
  }

  /** Every entry of the chain, first to last, becomes the head of its bucket in `t`. */
  function MoveChain(hash: Key -> nat, c: Chain, t: seq<Chain>): (r: seq<Chain>)
    requires |t| > 0
    ensures |r| == |t|
    decreases |c|
  {
    if c == [] then t
    else
      var h := Slot(hash, c[0].key, |t|);
      MoveChain(hash, c[1..], t[h := [c[0]] + t[h]])
  }

  /** One turn of the loop of `dictRehash`. */
  function RehashOne(hash: Key -> nat, s: State): State
    requires s.Rehashing() && 0 <= s.rehashidx <= |s.ht0.buckets| && |s.ht1.buckets| > 0
  {
    if s.ht0.used == 0 then State(s.ht1, NO_TABLE, -1, s.iterators)
    else
      var i := FirstUsed(s.ht0.buckets, s.rehashidx);
      if i == |s.ht0.buckets| then s  // not possible: entries are left
      else
        var c := s.ht0.buckets[i];
        State(Table(s.ht0.buckets[i := []], s.ht0.used - |c|),
              Table(MoveChain(hash, c, s.ht1.buckets), s.ht1.used + |c|), i + 1, s.iterators)
  }

  /** `_dictRehashStep`: safe iterators freeze the migration. */
  ghost function MaybeStep(hash: Key -> nat, s: State): State
    requires Inv(hash, s)
  {
    if s.Rehashing() && s.iterators == 0 then RehashOne(hash, s) else s
  }

  // ---- growing

  function NewTable(size: nat): Table {
    Table(seq(size, _ => []), 0)
  }

  function NextPowerFrom(i: nat, size: nat): (r: nat)
    requires i >= 1
    decreases size - i
  {
    if i >= size then i else NextPowerFrom(i * 2, size)
  }

  function NextPower(size: nat): nat {
    NextPowerFrom(INITIAL_SIZE, size)
  }

  /** `dictExpand`; refused (state unchanged) during a rehash or when the table would not fit. */
  function Expand(s: State, size: nat): State {
    var n := NewTable(NextPower(size));
    if s.Rehashing() || s.ht0.used > size then s
    else if |s.ht0.buckets| == 0 then s.(ht0 := n)
    else s.(ht1 := n, rehashidx := 0)
  }

  /** `dictResize`: the smallest table that holds the elements, where resizing is enabled. */
  function Resize(s: State, canResize: bool): State {
    if !canResize || s.Rehashing() then s
    else Expand(s, if s.ht0.used < INITIAL_SIZE then INITIAL_SIZE else s.ht0.used)
  }

  function ExpandIfNeeded(s: State, canResize: bool): State {
    var size := |s.ht0.buckets|;
    if s.Rehashing() then s
    else if size == 0 then Expand(s, INITIAL_SIZE)
    else if s.ht0.used >= size && (canResize || s.ht0.used / size > FORCE_RESIZE_RATIO) then
      Expand(s, (if size > s.ht0.used then size else s.ht0.used) * 2)
    else s
  }

  // ---- the operations

  function Prepend(hash: Key -> nat, t: Table, e: Entry): Table
    requires |t.buckets| > 0
  {
    var h := Slot(hash, e.key, |t.buckets|);
    Table(t.buckets[h := [e] + t.buckets[h]], t.used + 1)
  }

  /** `dictAdd`: the new state and whether the key was new. */
  ghost function Add(hash: Key -> nat, s: State, k: Key, v: Val, canResize: bool): (r: (State, bool))
    requires Inv(hash, s)
  {
    var s2 := ExpandIfNeeded(MaybeStep(hash, s), canResize);
    if Get(hash, s2, k).Some? || |s2.ht0.buckets| == 0 || (s2.Rehashing() && |s2.ht1.buckets| == 0) then (s2, false)
    else if s2.Rehashing() then (s2.(ht1 := Prepend(hash, s2.ht1, Entry(k, v))), true)
    else (s2.(ht0 := Prepend(hash, s2.ht0, Entry(k, v))), true)
  }

  function TableSet(hash: Key -> nat, t: Table, k: Key, v: Val): Table
    requires |t.buckets| > 0
  {
    var h := Slot(hash, k, |t.buckets|);
    t.(buckets := t.buckets[h := ChainSet(t.buckets[h], k, v)])
  }

  /** Writes the value of a key that is present. */
  function Assign(hash: Key -> nat, s: State, k: Key, v: Val): State {
    if InTable(hash, s.ht0.buckets, k) then s.(ht0 := TableSet(hash, s.ht0, k, v))
    else if InTable(hash, s.ht1.buckets, k) then s.(ht1 := TableSet(hash, s.ht1, k, v))
    else s
  }

  function TableRemove(hash: Key -> nat, t: Table, k: Key): Table
    requires |t.buckets| > 0
  {
    var h := Slot(hash, k, |t.buckets|);
    Table(t.buckets[h := ChainRemove(t.buckets[h], k)], t.used - 1)
  }

  function Unlink(hash: Key -> nat, s: State, k: Key): State {
    if InTable(hash, s.ht0.buckets, k) then s.(ht0 := TableRemove(hash, s.ht0, k))
    else if InTable(hash, s.ht1.buckets, k) then s.(ht1 := TableRemove(hash, s.ht1, k))
    else s
  }

  /** `dictGenericDelete`: the new state and whether the key was there. */
  ghost function Delete(hash: Key -> nat, s: State, k: Key): (State, bool)
    requires Inv(hash, s)
  {
    if |s.ht0.buckets| == 0 then (s, false)
    else
      var s1 := MaybeStep(hash, s);
      (Unlink(hash, s1, k), Get(hash, s1, k).Some?)
  }

  /** `dictFind`: the new state and the value found. */
  ghost function Find(hash: Key -> nat, s: State, k: Key): (State, Option<Val>)
    requires Inv(hash, s)
  {
    if |s.ht0.buckets| == 0 then (s, None)
    else
      var s1 := MaybeStep(hash, s);
      (s1, Get(hash, s1, k))
  }
}
