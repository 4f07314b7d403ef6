/** dict.c, how full the tables get: when a dictionary grows, and that without safe iterators its load stays
    below a constant over any run, however long a rehash is under way. */
module DictLoad {
  import opened Bytes
  import opened DictSpec
  import opened DictProofs

  /** The table that keys are going to. */
  function Target(s: State): seq<Chain> {
    if s.Rehashing() then s.ht1.buckets else s.ht0.buckets
  }

  /** How many entries a table of `size` buckets may have to hold, when every add may resize, and when some
      may not. */
  function Most(always: bool, size: nat): nat {
    if always then 2 * size + 1 else 6 * size
  }

  /** The load, with what is still to be moved counted twice: each add moves at least one entry on. */
  ghost predicate Light(s: State, always: bool) {
    if s.Rehashing() then 2 * s.ht0.used + s.ht1.used <= 2 * |s.ht1.buckets| + 1
    else s.ht0.used <= Most(always, |s.ht0.buckets|)
  }

  // ---- one turn of the rehash

  lemma ChainCounts(t: seq<Chain>, i: nat)
    requires i < |t|
    ensures |t[i]| <= Total(t)
  {
    TotalUpdate(t, i, []);
  }

  lemma StepCounts(hash: Key -> nat, s: State)
    requires Inv(hash, s) && s.Rehashing()
    ensures var r := RehashOne(hash, s);
      && (s.ht0.used == 0 ==> r == State(s.ht1, NO_TABLE, -1, s.iterators))
      && (s.ht0.used != 0 ==>
            && r.Rehashing() && 0 <= r.ht0.used < s.ht0.used && |r.ht1.buckets| == |s.ht1.buckets|
            && r.ht0.used + r.ht1.used == s.ht0.used + s.ht1.used)
  {
    if s.ht0.used != 0 {
      ScanInBounds(hash, s);
      ChainCounts(s.ht0.buckets, FirstUsed(s.ht0.buckets, s.rehashidx));
    }
  }

  lemma CountsNatural(hash: Key -> nat, s: State)
    requires Inv(hash, s)
    ensures s.ht0.used >= 0 && s.ht1.used >= 0
    ensures s.Rehashing() ==> |s.ht1.buckets| > 0
    ensures |s.ht0.buckets| == 0 ==> s.ht0.used == 0
  {
  }

  lemma StepLight(hash: Key -> nat, s: State, always: bool)
    requires Inv(hash, s) && s.iterators == 0 && Light(s, always)
    ensures var r := MaybeStep(hash, s);
      && Light(r, always)
      && (r.Rehashing() ==> s.Rehashing() && 2 * r.ht0.used + r.ht1.used <= 2 * |r.ht1.buckets|)
  {
    if s.Rehashing() {
      StepCounts(hash, s);
      CountsNatural(hash, s);
    }
    hide RehashOne, Inv;
  }

  lemma {:induction false} RehashLight(hash: Key -> nat, s: State, n: nat, always: bool)
    requires Inv(hash, s) && Light(s, always)
    ensures Light(Rehash(hash, s, n), always)
    decreases n
  {
    if n > 0 && s.Rehashing() {
      StepCounts(hash, s);
      CountsNatural(hash, s);
      RehashOneOk(hash, s);
      hide RehashOne, Inv;
      RehashLight(hash, RehashOne(hash, s), n - 1, always);
    }
  }

  // ---- growing

  lemma ExpandLight(hash: Key -> nat, s: State, size: nat, always: bool)
    requires Inv(hash, s) && Light(s, always)
    ensures Light(Expand(s, size), always)
  {
    NewTableOk(hash, size);
    CountsNatural(hash, s);
    hide NextPower, Inv, TableOk, InTable;
  }

  /** A dictionary that is not being rehashed begins to be when it is as full as it is large and may resize,
      or when it is six times as full; the new table is the smallest power of two that is twice as large as
      either. */
  lemma GrowsIff(hash: Key -> nat, s: State, canResize: bool)
    requires Inv(hash, s) && !s.Rehashing() && |s.ht0.buckets| > 0
    ensures var r := ExpandIfNeeded(s, canResize); var size := |s.ht0.buckets|;
      && (r.Rehashing() <==> s.ht0.used >= size && (canResize || s.ht0.used >= 6 * size))
      && (!r.Rehashing() ==> r == s)
      && (r.Rehashing() ==>
            && r.ht0 == s.ht0 && r.rehashidx == 0 && r.ht1.used == 0
            && IsPow2(|r.ht1.buckets|) && |r.ht1.buckets| >= 2 * s.ht0.used
            && (|r.ht1.buckets| > 4 ==> |r.ht1.buckets| < 4 * s.ht0.used))
  {
    var size := |s.ht0.buckets|;
    Quotient(s.ht0.used, size);
    if s.ht0.used >= size {
      NewTableOk(hash, s.ht0.used * 2);
      assert IsPow2(2) && IsPow2(4);
      NextPowerIsPow2(4, s.ht0.used * 2);
    }
    hide IsPow2, NextPowerFrom, Inv;
  }

  lemma Quotient(used: int, size: nat)
    requires size > 0
    ensures used / size > 5 <==> used >= 6 * size
  {
    var q := used / size;
    assert size * q <= used < size * q + size;
    if q > 5 { assert size * q >= size * 6; } else { assert size * q <= size * 5; }
  }

  /** `dictResize` acts if and only if resizing is enabled and no rehash is under way; the table asked for is
      the smallest power of two from four on that holds the elements. */
  lemma ResizesIff(hash: Key -> nat, s: State, canResize: bool)
    requires Inv(hash, s)
    ensures var r := Resize(s, canResize); var t := if |s.ht0.buckets| == 0 then r.ht0 else r.ht1;
      && (r != s <==> canResize && !s.Rehashing())
      && (r != s ==>
            && IsPow2(|t.buckets|) && |t.buckets| >= 4 && |t.buckets| >= s.ht0.used && t.used == 0
            && (|t.buckets| > 4 ==> |t.buckets| < 2 * s.ht0.used)
            && (|s.ht0.buckets| > 0 ==> r.ht0 == s.ht0 && r.rehashidx == 0))
  {
    var size := if s.ht0.used < 4 then 4 else s.ht0.used;
    CountsNatural(hash, s);
    NewTableOk(hash, size);
    assert IsPow2(2) && IsPow2(4);
    NextPowerIsPow2(4, size);
    hide IsPow2, NextPowerFrom, Inv, TableOk, InTable;
  }

  /** An empty dictionary gets four buckets. */
  lemma FirstTable(s: State, canResize: bool)
    requires !s.Rehashing() && s.ht0 == NO_TABLE
    ensures |ExpandIfNeeded(s, canResize).ht0.buckets| == 4 && !ExpandIfNeeded(s, canResize).Rehashing()
  {
    assert NextPowerFrom(4, 4) == 4;
  }

  /** There is room for one more after the test for growth. */
  lemma GrownLight(hash: Key -> nat, s: State, canResize: bool, always: bool)
    requires Inv(hash, s) && Light(s, always) && (always ==> canResize)
    requires s.Rehashing() ==> 2 * s.ht0.used + s.ht1.used <= 2 * |s.ht1.buckets|
    ensures var r := ExpandIfNeeded(s, canResize);
      && Light(r, always)
      && if r.Rehashing() then 2 * r.ht0.used + r.ht1.used <= 2 * |r.ht1.buckets|
         else r.ht0.used + 1 <= Most(always, |r.ht0.buckets|)
  {
    CountsNatural(hash, s);
    if s.Rehashing() {
    } else if |s.ht0.buckets| > 0 {
      GrowsIff(hash, s, canResize);
      hide Expand, Inv, IsPow2;
    } else {
      assert s.ht0 == NO_TABLE;
      FirstTable(s, canResize);
      assert NextPowerFrom(4, 4) == 4;
    }
  }

  lemma AddLight(hash: Key -> nat, s: State, k: Key, v: Val, canResize: bool, always: bool)
    requires Inv(hash, s) && s.iterators == 0 && Light(s, always) && (always ==> canResize)
    ensures Light(Add(hash, s, k, v, canResize).0, always)
  {
    StepLight(hash, s, always);
    MaybeStepOk(hash, s);
    GrownLight(hash, MaybeStep(hash, s), canResize, always);
    hide ExpandIfNeeded, MaybeStep, Inv, Get;
  }

  /** A change that adds no entry. */
  lemma FewerLight(s: State, r: State, always: bool)
    requires Light(s, always) && r.rehashidx == s.rehashidx
    requires r.ht0.used <= s.ht0.used && r.ht1.used <= s.ht1.used
    requires |r.ht0.buckets| == |s.ht0.buckets| && |r.ht1.buckets| == |s.ht1.buckets|
    ensures Light(r, always)
  {
  }

  lemma AssignLight(hash: Key -> nat, s: State, k: Key, v: Val, always: bool)
    requires Light(s, always)
    ensures Light(Assign(hash, s, k, v), always)
  {
    FewerLight(s, Assign(hash, s, k, v), always);
    hide ChainSet, Light, TableGet;
  }

  lemma UnlinkLight(hash: Key -> nat, s: State, k: Key, always: bool)
    requires Light(s, always)
    ensures Light(Unlink(hash, s, k), always)
  {
    FewerLight(s, Unlink(hash, s, k), always);
    hide ChainRemove, Light, TableGet;
  }

  lemma ReplaceLight(hash: Key -> nat, s: State, k: Key, v: Val, canResize: bool, always: bool)
    requires Inv(hash, s) && s.iterators == 0 && Light(s, always) && (always ==> canResize)
    ensures Light(Replace(hash, s, k, v, canResize).0, always)
  {
    AddOk(hash, s, k, v, canResize);
    AddLight(hash, s, k, v, canResize, always);
    var s1 := Add(hash, s, k, v, canResize).0;
    StepLight(hash, s1, always);
    AssignLight(hash, MaybeStep(hash, s1), k, v, always);
    hide Add, MaybeStep, Inv, Get, Light, Assign;
  }

  lemma DeleteLight(hash: Key -> nat, s: State, k: Key, always: bool)
    requires Inv(hash, s) && s.iterators == 0 && Light(s, always)
    ensures Light(Delete(hash, s, k).0, always)
  {
    StepLight(hash, s, always);
    UnlinkLight(hash, MaybeStep(hash, s), k, always);
    hide MaybeStep, Inv, Light, Unlink;
  }

  // ---- whole runs

  /** Every operation that may resize does so where it can. */
  ghost predicate AlwaysResizes(ops: seq<Op>) {
    forall i :: 0 <= i < |ops| ==>
      && (ops[i].DoAdd? ==> ops[i].canResize)
      && (ops[i].DoReplace? ==> ops[i].canResize)
  }

  lemma OneLight(hash: Key -> nat, s: State, op: Op, always: bool)
    requires Inv(hash, s) && s.iterators == 0 && Light(s, always) && (always ==> AlwaysResizes([op]))
    ensures Light(Step(hash, s, op).0, always)
  {
    assert always ==> [op][0] == op && (op.DoAdd? || op.DoReplace? ==> op.canResize);
    hide Inv, Light, Add, Replace, Delete, Expand, Rehash, MaybeStep;
    match op
    case DoFind(k) => StepLight(hash, s, always);
    case DoAdd(k, v, c) => AddLight(hash, s, k, v, c, always);
    case DoReplace(k, v, c) => ReplaceLight(hash, s, k, v, c, always);
    case DoDelete(k) => DeleteLight(hash, s, k, always);
    case DoExpand(size) => ExpandLight(hash, s, size, always);
    case DoResize(c) => ExpandLight(hash, s, if s.ht0.used < INITIAL_SIZE then INITIAL_SIZE else s.ht0.used, always);
    case DoRehash(n) => RehashLight(hash, s, n, always);
  }

  lemma {:induction false} RunLight(hash: Key -> nat, s: State, ops: seq<Op>, always: bool)
    requires Inv(hash, s) && s.iterators == 0 && Light(s, always) && (always ==> AlwaysResizes(ops))
    ensures var r := Run(hash, s, ops).0; Inv(hash, r) && Light(r, always)
    decreases |ops|
  {
    if ops != [] {
      StepKeepsInv(hash, s, ops[0]);
      assert always ==> AlwaysResizes([ops[0]]) && AlwaysResizes(ops[1..]);
      hide Inv, Light, AlwaysResizes, Step;
      OneLight(hash, s, ops[0], always);
      RunLight(hash, Step(hash, s, ops[0]).0, ops[1..], always);
    }
  }

  lemma EmptyOk(hash: Key -> nat)
    ensures Inv(hash, EMPTY)
  {
  }

  /** However many keys are added, deleted and looked up, and however the dictionary is resized on the way:
      the table that keys go to never holds more than six times as many entries as it has buckets, and, when
      adds may always resize, than twice as many and one; those not moved yet included. */
  lemma LoadBounded(hash: Key -> nat, ops: seq<Op>)
    ensures var r := Run(hash, EMPTY, ops).0; var size := |Target(r)|;
      && r.ht0.used + r.ht1.used <= 6 * size
      && (AlwaysResizes(ops) ==> r.ht0.used + r.ht1.used <= 2 * size + 1)
  {
    EmptyOk(hash);
    RunLight(hash, EMPTY, ops, false);
    if AlwaysResizes(ops) { RunLight(hash, EMPTY, ops, true); }
    CountsNatural(hash, Run(hash, EMPTY, ops).0);
    hide Run, AlwaysResizes;
  }
}
