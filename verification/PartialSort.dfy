/** pqsort.c: the partial quicksort of SORT ... LIMIT. Byte pointers are element indices (es = 1);
    with any other element size the byte ranges compare exactly as these indices do. */
module PartialSort {

  /** One call of the caller's comparison function. */
  function Compare<T>(cmp: (T, T) -> int, a: T, b: T): int {
    cmp(a, b)
  }

  /** Names a triple, so that transitivity is used only where a proof asks for it. */
  ghost predicate Consider<T>(a: T, b: T, c: T) { true }

  /** `cmp` is a three-way comparison of a total preorder. */
  ghost predicate TotalPreorder<T(!new)>(cmp: (T, T) -> int) {
    && (forall a, b :: Compare(cmp, a, b) < 0 <==> Compare(cmp, b, a) > 0)
    && (forall a, b, c {:trigger Consider(a, b, c)} ::
          Consider(a, b, c) && Compare(cmp, a, b) <= 0 && Compare(cmp, b, c) <= 0 ==> Compare(cmp, a, c) <= 0)
  }

  /** `t` is `s` with the elements at `lo..hi` permuted and nothing else touched. */
  ghost predicate Rearranged<T>(s: seq<T>, t: seq<T>, lo: nat, hi: nat) {
    && |s| == |t| && lo <= hi <= |s|
    && s[..lo] == t[..lo] && s[hi..] == t[hi..]
    && multiset(s[lo..hi]) == multiset(t[lo..hi])
  }

  ghost predicate Sorted<T>(cmp: (T, T) -> int, s: seq<T>, lo: nat, hi: nat) {
    hi <= |s| && forall i, j :: lo <= i < j < hi ==> Compare(cmp, s[i], s[j]) <= 0
  }

  /** Position `i` holds an element that belongs there: nothing before it in `lo..hi` is greater,
      nothing after it is smaller. */
  ghost predicate Settled<T>(cmp: (T, T) -> int, s: seq<T>, lo: nat, hi: nat, i: nat) {
    && lo <= i < hi <= |s|
    && (forall j :: lo <= j < i ==> Compare(cmp, s[j], s[i]) <= 0)
    && (forall j :: i < j < hi ==> Compare(cmp, s[i], s[j]) <= 0)
  }

  ghost predicate AllBelow<T>(cmp: (T, T) -> int, s: seq<T>, i: int, j: int, p: T) {
    0 <= i && j <= |s| && forall k :: i <= k < j ==> Compare(cmp, s[k], p) < 0
  }

  ghost predicate AllEqual<T>(cmp: (T, T) -> int, s: seq<T>, i: int, j: int, p: T) {
    0 <= i && j <= |s| && forall k :: i <= k < j ==> Compare(cmp, s[k], p) == 0
  }

  ghost predicate AllAbove<T>(cmp: (T, T) -> int, s: seq<T>, i: int, j: int, p: T) {
    0 <= i && j <= |s| && forall k :: i <= k < j ==> Compare(cmp, s[k], p) > 0
  }

  // ---- rearrangements

  lemma SwapRearranges<T>(s: seq<T>, i: nat, j: nat, lo: nat, hi: nat)
    requires lo <= i < hi <= |s| && lo <= j < hi
    ensures Rearranged(s, s[i := s[j]][j := s[i]], lo, hi)
  {
    var t := s[i := s[j]][j := s[i]];
    assert t[lo..hi] == s[lo..hi][i - lo := s[j]][j - lo := s[i]];
  }

  lemma RearrangedWiden<T>(s: seq<T>, t: seq<T>, lo: nat, hi: nat, lo': nat, hi': nat)
    requires Rearranged(s, t, lo, hi) && lo' <= lo && hi <= hi' <= |s|
    ensures Rearranged(s, t, lo', hi')
  {
    assert s[lo'..hi'] == s[..lo][lo'..] + s[lo..hi] + s[hi..][..hi' - hi];
    assert t[lo'..hi'] == t[..lo][lo'..] + t[lo..hi] + t[hi..][..hi' - hi];
    assert s[..lo'] == s[..lo][..lo'] && s[hi'..] == s[hi..][hi' - hi..];
    assert t[..lo'] == t[..lo][..lo'] && t[hi'..] == t[hi..][hi' - hi..];
  }

  lemma RearrangedSame<T>(s: seq<T>, lo: nat, hi: nat)
    requires lo <= hi <= |s|
    ensures Rearranged(s, s, lo, hi)
  {
  }

  lemma RearrangedTrans<T>(s: seq<T>, t: seq<T>, u: seq<T>, lo: nat, hi: nat)
    requires Rearranged(s, t, lo, hi) && Rearranged(t, u, lo, hi)
    ensures Rearranged(s, u, lo, hi)
  {
  }

  /** Every element after the rearrangement was somewhere in the range before it. */
  lemma RearrangedFrom<T>(s: seq<T>, t: seq<T>, lo: nat, hi: nat, k: nat) returns (m: nat)
    requires Rearranged(s, t, lo, hi) && lo <= k < hi
    ensures lo <= m < hi && t[k] == s[m]
  {
    assert t[k] == t[lo..hi][k - lo];
    assert t[k] in multiset(t[lo..hi]);
    assert t[k] in s[lo..hi];
    var i :| 0 <= i < hi - lo && s[lo..hi][i] == t[k];
    m := lo + i;
  }

  lemma RearrangedOutside<T>(s: seq<T>, t: seq<T>, lo: nat, hi: nat)
    requires Rearranged(s, t, lo, hi)
    ensures |s| == |t|
    ensures forall k :: 0 <= k < lo || hi <= k < |s| ==> s[k] == t[k]
  {
    forall k | 0 <= k < lo || hi <= k < |s| ensures s[k] == t[k] {
      if k < lo { assert s[..lo][k] == t[..lo][k]; } else { assert s[hi..][k - hi] == t[hi..][k - hi]; }
    }
  }

  /** `t` is `s` with the elements at `i` and `j` exchanged. */
  ghost predicate Swapped<T>(s: seq<T>, t: seq<T>, i: nat, j: nat) {
    && |s| == |t| && i < |s| && j < |s| && t[i] == s[j] && t[j] == s[i]
    && forall k :: 0 <= k < |s| && k != i && k != j ==> t[k] == s[k]
  }

  method Swap<T(!new)>(a: array<T>, i: nat, j: nat, ghost lo: nat, ghost hi: nat)
    requires lo <= i < hi <= a.Length && lo <= j < hi
    modifies a
    ensures Swapped(old(a[..]), a[..], i, j)
    ensures Rearranged(old(a[..]), a[..], lo, hi)
  {
    SwapRearranges(a[..], i, j, lo, hi);
    ghost var swapped := a[..][i := a[j]][j := a[i]];
    a[i], a[j] := a[j], a[i];
    assert a[..] == swapped;
  }

  // ---- insertion sort

  method InsertionSort<T(!new)>(a: array<T>, cmp: (T, T) -> int, lo: nat, hi: nat)
    requires TotalPreorder(cmp) && lo <= hi <= a.Length
    modifies a
    ensures Rearranged(old(a[..]), a[..], lo, hi)
    ensures Sorted(cmp, a[..], lo, hi)
  {
    var pm := lo + 1;
    while pm < hi
      invariant lo < pm && (hi < pm ==> pm == lo + 1)
      invariant Rearranged(old(a[..]), a[..], lo, hi)
      invariant Sorted(cmp, a[..], lo, if pm < hi then pm else hi)
    {
      Insert(a, cmp, lo, pm, hi);
      pm := pm + 1;
    }
  }

  /** Sorted but for the element at `pl`, which may be smaller than elements before it. */
  ghost predicate SortedBut<T>(cmp: (T, T) -> int, s: seq<T>, lo: nat, hi: nat, pl: nat) {
    hi <= |s| && forall i, j :: lo <= i < j < hi && j != pl ==> Compare(cmp, s[i], s[j]) <= 0
  }

  lemma SinkStep<T(!new)>(cmp: (T, T) -> int, s: seq<T>, t: seq<T>, lo: nat, hi: nat, pl: nat)
    requires TotalPreorder(cmp) && SortedBut(cmp, s, lo, hi, pl) && lo < pl < hi
    requires Compare(cmp, s[pl - 1], s[pl]) > 0
    requires Swapped(s, t, pl, pl - 1)
    ensures SortedBut(cmp, t, lo, hi, pl - 1)
  {
    assert Compare(cmp, s[pl], s[pl - 1]) < 0;
  }

  lemma SinkEnds<T(!new)>(cmp: (T, T) -> int, s: seq<T>, lo: nat, hi: nat, pl: nat)
    requires TotalPreorder(cmp) && SortedBut(cmp, s, lo, hi, pl) && lo <= pl < hi
    requires pl > lo ==> Compare(cmp, s[pl - 1], s[pl]) <= 0
    ensures Sorted(cmp, s, lo, hi)
  {
    forall i, j | lo <= i < j < hi ensures Compare(cmp, s[i], s[j]) <= 0 {
      if j == pl { assert Consider(s[i], s[pl - 1], s[pl]); }
    }
  }

  method Sink<T(!new)>(a: array<T>, cmp: (T, T) -> int, lo: nat, ghost pm: nat, pl: nat, ghost hi: nat)
    requires TotalPreorder(cmp) && lo < pl <= pm < hi <= a.Length
    requires SortedBut(cmp, a[..], lo, pm + 1, pl) && Compare(cmp, a[pl - 1], a[pl]) > 0
    modifies a
    ensures Rearranged(old(a[..]), a[..], lo, hi)
    ensures SortedBut(cmp, a[..], lo, pm + 1, pl - 1)
  {
    hide *;
    ghost var before := a[..];
    Swap(a, pl, pl - 1, lo, hi);
    SinkStep(cmp, before, a[..], lo, pm + 1, pl);
  }

  /** Sinks the element at `pm` into the sorted range before it. */
  method Insert<T(!new)>(a: array<T>, cmp: (T, T) -> int, lo: nat, pm: nat, ghost hi: nat)
    requires TotalPreorder(cmp) && lo < pm < hi <= a.Length && Sorted(cmp, a[..], lo, pm)
    modifies a
    ensures Rearranged(old(a[..]), a[..], lo, hi)
    ensures Sorted(cmp, a[..], lo, pm + 1)
  {
    RearrangedSame(a[..], lo, hi);
    assert SortedBut(cmp, a[..], lo, pm + 1, pm);
    hide *;
    ghost var s0 := a[..];
    var pl := pm;
    while pl > lo && Compare(cmp, a[pl - 1], a[pl]) > 0
      invariant lo <= pl <= pm
      invariant Rearranged(s0, a[..], lo, hi)
      invariant SortedBut(cmp, a[..], lo, pm + 1, pl)
    {
      ghost var before := a[..];
      Sink(a, cmp, lo, pm, pl, hi);
      RearrangedTrans(old(a[..]), before, a[..], lo, hi);
      pl := pl - 1;
    }
    SinkEnds(cmp, a[..], lo, pm + 1, pl);
  }

  // ---- choice of the pivot

  /** The index of the median of three elements. */
  function Med3<T>(s: seq<T>, a: nat, b: nat, c: nat, cmp: (T, T) -> int): (m: nat)
    requires a < |s| && b < |s| && c < |s|
    ensures m == a || m == b || m == c
  {
    if Compare(cmp, s[a], s[b]) < 0 then
      (if Compare(cmp, s[b], s[c]) < 0 then b else if Compare(cmp, s[a], s[c]) < 0 then c else a)
    else
      (if Compare(cmp, s[b], s[c]) > 0 then b else if Compare(cmp, s[a], s[c]) < 0 then a else c)
  }

  function PivotIndex<T>(s: seq<T>, lo: nat, n: nat, cmp: (T, T) -> int): (pm: nat)
    requires 7 <= n && lo + n <= |s|
    ensures lo <= pm < lo + n
  {
    var pm := lo + n / 2;
    if n > 40 then
      var d := n / 8;
      Med3(s, Med3(s, lo, lo + d, lo + 2 * d, cmp), Med3(s, pm - d, pm, pm + d, cmp),
           Med3(s, lo + n - 1 - 2 * d, lo + n - 1 - d, lo + n - 1, cmp), cmp)
    else if n > 7 then Med3(s, lo, pm, lo + n - 1, cmp)
    else pm
  }

  // ---- the three-way partition

  /** The regions of the partition around the pivot `p`, which stays at `lo`:
      equal | below | not looked at | above | equal. */
  ghost predicate Regions<T>(cmp: (T, T) -> int, s: seq<T>, lo: nat, hi: nat, p: T,
                             pa: int, pb: int, pc: int, pd: int) {
    && lo < pa <= pb <= pc + 1 && pc <= pd < hi <= |s| && s[lo] == p
    && AllEqual(cmp, s, lo, pa, p) && AllBelow(cmp, s, pa, pb, p)
    && AllAbove(cmp, s, pc + 1, pd + 1, p) && AllEqual(cmp, s, pd + 1, hi, p)
  }

  /** The element just looked at is smaller than the pivot, or equal to it and exchanged with the
      first of the smaller ones. */
  lemma ScanUpStep<T(!new)>(cmp: (T, T) -> int, s: seq<T>, t: seq<T>, lo: nat, hi: nat, p: T,
                            pa: nat, pb: nat, pc: nat, pd: nat)
    requires Regions(cmp, s, lo, hi, p, pa, pb, pc, pd) && pb <= pc && Compare(cmp, s[pb], s[lo]) <= 0
    requires Compare(cmp, s[pb], s[lo]) == 0 ==> Swapped(s, t, pa, pb)
    requires Compare(cmp, s[pb], s[lo]) < 0 ==> s == t
    ensures Compare(cmp, s[pb], s[lo]) == 0 ==> Regions(cmp, t, lo, hi, p, pa + 1, pb + 1, pc, pd)
    ensures Compare(cmp, s[pb], s[lo]) < 0 ==> Regions(cmp, t, lo, hi, p, pa, pb + 1, pc, pd)
  {
  }

  lemma ScanDownStep<T(!new)>(cmp: (T, T) -> int, s: seq<T>, t: seq<T>, lo: nat, hi: nat, p: T,
                              pa: nat, pb: nat, pc: nat, pd: nat)
    requires Regions(cmp, s, lo, hi, p, pa, pb, pc, pd) && pb <= pc && Compare(cmp, s[pc], s[lo]) >= 0
    requires Compare(cmp, s[pc], s[lo]) == 0 ==> Swapped(s, t, pc, pd)
    requires Compare(cmp, s[pc], s[lo]) > 0 ==> s == t
    ensures Compare(cmp, s[pc], s[lo]) == 0 ==> Regions(cmp, t, lo, hi, p, pa, pb, pc - 1, pd - 1)
    ensures Compare(cmp, s[pc], s[lo]) > 0 ==> Regions(cmp, t, lo, hi, p, pa, pb, pc - 1, pd)
    ensures pb < pc ==> t[pb] == s[pb]
  {
  }

  lemma RegionsBounds<T>(cmp: (T, T) -> int, s: seq<T>, lo: nat, hi: nat, p: T, pa: nat, pb: nat, pc: int, pd: int)
    requires Regions(cmp, s, lo, hi, p, pa, pb, pc, pd)
    ensures lo < pa <= pb <= pc + 1 && pc <= pd < hi <= |s| && s[lo] == p
  {
  }

  /** The elements after the pivot at `lo` are smaller ones followed by greater ones. */
  ghost predicate Parted<T>(cmp: (T, T) -> int, s: seq<T>, lo: nat, hi: nat, p: T) {
    exists m: nat :: lo < m <= hi && AllBelow(cmp, s, lo + 1, m, p) && AllAbove(cmp, s, m, hi, p)
  }

  /** What `swapped` tells while `start` is partitioned: nothing has been done yet, or `start` was
      not parted. */
  ghost predicate Noted<T>(cmp: (T, T) -> int, start: seq<T>, s: seq<T>, lo: nat, hi: nat, p: T,
                           pa: int, pd: int, swapped: bool) {
    if swapped then !Parted(cmp, start, lo, hi, p) else s == start && pa == lo + 1 && pd == hi - 1
  }

  /** An element equal to the pivot, or a greater one before a smaller one, is reason to exchange. */
  lemma NotedExchange<T>(cmp: (T, T) -> int, start: seq<T>, s: seq<T>, t: seq<T>, lo: nat, hi: nat, p: T,
                         pa: int, pd: int, swapped: bool, i: nat, j: nat)
    requires Noted(cmp, start, s, lo, hi, p, pa, pd, swapped) && lo < i <= j < hi <= |s|
    requires Compare(cmp, s[i], p) >= 0 && Compare(cmp, s[j], p) <= 0
    ensures forall pa', pd' :: Noted(cmp, start, t, lo, hi, p, pa', pd', true)
  {
  }

  lemma NotedAtEnd<T>(cmp: (T, T) -> int, start: seq<T>, s: seq<T>, lo: nat, hi: nat, p: T,
                      pa: int, pb: nat, pc: int, pd: int, swapped: bool)
    requires Noted(cmp, start, s, lo, hi, p, pa, pd, swapped)
    requires Regions(cmp, s, lo, hi, p, pa, pb, pc, pd) && pb == pc + 1
    ensures swapped <==> !Parted(cmp, start, lo, hi, p)
    ensures !swapped ==> s == start
  {
  }

  method ScanUp<T(!new)>(a: array<T>, cmp: (T, T) -> int, lo: nat, ghost hi: nat, ghost p: T,
                         pa0: nat, pb0: nat, pc: nat, ghost pd: nat, swapped0: bool, ghost start: seq<T>)
    returns (pa: nat, pb: nat, swapped: bool)
    requires Regions(cmp, a[..], lo, hi, p, pa0, pb0, pc, pd)
    requires Noted(cmp, start, a[..], lo, hi, p, pa0, pd, swapped0)
    modifies a
    ensures Rearranged(old(a[..]), a[..], lo, hi)
    ensures Regions(cmp, a[..], lo, hi, p, pa, pb, pc, pd) && pb0 <= pb
    ensures Noted(cmp, start, a[..], lo, hi, p, pa, pd, swapped)
    ensures pb <= pc ==> pb < a.Length && Compare(cmp, a[pb], p) > 0
  {
    hide *;
    ghost var s0 := a[..];
    RegionsBounds(cmp, s0, lo, hi, p, pa0, pb0, pc, pd);
    RearrangedSame(s0, lo, hi);
    pa, pb, swapped := pa0, pb0, swapped0;
    while pb <= pc && Compare(cmp, a[pb], a[lo]) <= 0
      invariant pb0 <= pb && lo < pa <= pb <= pc + 1 <= hi <= a.Length && a[lo] == p
      invariant Rearranged(s0, a[..], lo, hi)
      invariant Regions(cmp, a[..], lo, hi, p, pa, pb, pc, pd)
      invariant Noted(cmp, start, a[..], lo, hi, p, pa, pd, swapped)
      decreases pc + 1 - pb
    {
      ghost var s := a[..];
      if Compare(cmp, a[pb], a[lo]) == 0 {
        Swap(a, pa, pb, lo, hi);
        NotedExchange(cmp, start, s, a[..], lo, hi, p, pa, pd, swapped, pb, pb);
        swapped := true;
        ScanUpStep(cmp, s, a[..], lo, hi, p, pa, pb, pc, pd);
        RearrangedTrans(s0, s, a[..], lo, hi);
        pa := pa + 1;
      } else {
        ScanUpStep(cmp, s, s, lo, hi, p, pa, pb, pc, pd);
      }
      pb := pb + 1;
      RegionsBounds(cmp, a[..], lo, hi, p, pa, pb, pc, pd);
    }
  }

  method ScanDown<T(!new)>(a: array<T>, cmp: (T, T) -> int, lo: nat, hi: nat, ghost p: T,
                           ghost pa: nat, pb: nat, pc0: nat, pd0: nat, swapped0: bool, ghost start: seq<T>)
    returns (pc: nat, pd: nat, swapped: bool)
    requires Regions(cmp, a[..], lo, hi, p, pa, pb, pc0, pd0)
    requires Noted(cmp, start, a[..], lo, hi, p, pa, pd0, swapped0)
    modifies a
    ensures Rearranged(old(a[..]), a[..], lo, hi)
    ensures Regions(cmp, a[..], lo, hi, p, pa, pb, pc, pd) && pc <= pc0
    ensures Noted(cmp, start, a[..], lo, hi, p, pa, pd, swapped)
    ensures pb <= pc ==> pc < a.Length && Compare(cmp, a[pc], p) < 0 && a[pb] == old(a[..])[pb]
  {
    hide *;
    ghost var s0 := a[..];
    RegionsBounds(cmp, s0, lo, hi, p, pa, pb, pc0, pd0);
    RearrangedSame(s0, lo, hi);
    pc, pd, swapped := pc0, pd0, swapped0;
    while pb <= pc && Compare(cmp, a[pc], a[lo]) >= 0
      invariant pc <= pc0 && lo < pb <= pc + 1 && pc <= pd < hi <= a.Length && a[lo] == p
      invariant Rearranged(s0, a[..], lo, hi)
      invariant Regions(cmp, a[..], lo, hi, p, pa, pb, pc, pd)
      invariant Noted(cmp, start, a[..], lo, hi, p, pa, pd, swapped)
      invariant pb <= pc ==> a[pb] == s0[pb]
      decreases pc + 1 - pb
    {
      ghost var s := a[..];
      if Compare(cmp, a[pc], a[lo]) == 0 {
        Swap(a, pc, pd, lo, hi);
        NotedExchange(cmp, start, s, a[..], lo, hi, p, pa, pd, swapped, pc, pc);
        swapped := true;
        ScanDownStep(cmp, s, a[..], lo, hi, p, pa, pb, pc, pd);
        RearrangedTrans(s0, s, a[..], lo, hi);
        pd := pd - 1;
      } else {
        ScanDownStep(cmp, s, s, lo, hi, p, pa, pb, pc, pd);
      }
      pc := pc - 1;
      RegionsBounds(cmp, a[..], lo, hi, p, pa, pb, pc, pd);
    }
  }

  /** Exchanging the greater element at `pb` with the smaller one at `pc` puts both in place. */
  lemma ExchangeStep<T>(cmp: (T, T) -> int, s: seq<T>, t: seq<T>, lo: nat, hi: nat, p: T,
                        pa: nat, pb: nat, pc: nat, pd: nat)
    requires Regions(cmp, s, lo, hi, p, pa, pb, pc, pd) && pb < pc && Swapped(s, t, pb, pc)
    requires Compare(cmp, s[pb], p) > 0 && Compare(cmp, s[pc], p) < 0
    ensures Regions(cmp, t, lo, hi, p, pa, pb + 1, pc - 1, pd)
  {
  }

  /** One turn of the partition loop: both scans and, unless they met, the exchange. */
  method PartitionTurn<T(!new)>(a: array<T>, cmp: (T, T) -> int, lo: nat, hi: nat, ghost p: T,
                                pa0: nat, pb0: nat, pc0: nat, pd0: nat, swapped0: bool, ghost start: seq<T>)
    returns (pa: nat, pb: nat, pc: nat, pd: nat, swapped: bool)
    requires Regions(cmp, a[..], lo, hi, p, pa0, pb0, pc0, pd0)
    requires Noted(cmp, start, a[..], lo, hi, p, pa0, pd0, swapped0)
    modifies a
    ensures Rearranged(old(a[..]), a[..], lo, hi)
    ensures Regions(cmp, a[..], lo, hi, p, pa, pb, pc, pd)
    ensures Noted(cmp, start, a[..], lo, hi, p, pa, pd, swapped)
    ensures pb == pc + 1 || pc - pb < pc0 - pb0
  {
    hide *;
    ghost var s0 := a[..];
    pa, pb, swapped := ScanUp(a, cmp, lo, hi, p, pa0, pb0, pc0, pd0, swapped0, start);
    ghost var s1 := a[..];
    pc, pd, swapped := ScanDown(a, cmp, lo, hi, p, pa, pb, pc0, pd0, swapped, start);
    ghost var s2 := a[..];
    RearrangedTrans(s0, s1, s2, lo, hi);
    RegionsBounds(cmp, s1, lo, hi, p, pa, pb, pc0, pd0);
    RegionsBounds(cmp, s2, lo, hi, p, pa, pb, pc, pd);
    if pb <= pc {
      assert pb != pc;
      Swap(a, pb, pc, lo, hi);
      RearrangedTrans(s0, s2, a[..], lo, hi);
      NotedExchange(cmp, start, s2, a[..], lo, hi, p, pa, pd, swapped, pb, pc);
      ExchangeStep(cmp, s2, a[..], lo, hi, p, pa, pb, pc, pd);
      swapped := true;
      pb, pc := pb + 1, pc - 1;
    }
  }

  lemma PartitionStarts<T(!new)>(cmp: (T, T) -> int, s: seq<T>, lo: nat, hi: nat)
    requires TotalPreorder(cmp) && lo + 1 < hi <= |s|
    ensures Regions(cmp, s, lo, hi, s[lo], lo + 1, lo + 1, hi - 1, hi - 1)
    ensures Noted(cmp, s, s, lo, hi, s[lo], lo + 1, hi - 1, false)
  {
    assert Compare(cmp, s[lo], s[lo]) == 0;
  }

  /** Partitions `lo..hi` around the pivot at `lo`; `swapped` is false exactly when there was nothing
      to exchange, and then nothing has changed. */
  method Partition<T(!new)>(a: array<T>, cmp: (T, T) -> int, lo: nat, hi: nat)
    returns (pa: nat, pb: nat, pc: nat, pd: nat, swapped: bool, ghost p: T)
    requires TotalPreorder(cmp) && lo + 1 < hi <= a.Length
    modifies a
    ensures Rearranged(old(a[..]), a[..], lo, hi)
    ensures Regions(cmp, a[..], lo, hi, p, pa, pb, pc, pd) && pb == pc + 1
    ensures p == old(a[lo]) && (swapped <==> !Parted(cmp, old(a[..]), lo, hi, p))
    ensures !swapped ==> a[..] == old(a[..])
  {
    ghost var s0 := a[..];
    p := a[lo];
    pa, pb, pc, pd, swapped := lo + 1, lo + 1, hi - 1, hi - 1, false;
    RearrangedSame(s0, lo, hi);
    PartitionStarts(cmp, s0, lo, hi);
    hide *;
    while pb <= pc
      invariant pb <= pc + 1
      invariant Rearranged(s0, a[..], lo, hi)
      invariant Regions(cmp, a[..], lo, hi, p, pa, pb, pc, pd)
      invariant Noted(cmp, s0, a[..], lo, hi, p, pa, pd, swapped)
      decreases pc + 1 - pb
    {
      ghost var before := a[..];
      pa, pb, pc, pd, swapped := PartitionTurn(a, cmp, lo, hi, p, pa, pb, pc, pd, swapped, s0);
      RegionsBounds(cmp, a[..], lo, hi, p, pa, pb, pc, pd);
      RearrangedTrans(s0, before, a[..], lo, hi);
    }
    NotedAtEnd(cmp, s0, a[..], lo, hi, p, pa, pb, pc, pd, swapped);
  }

  /** `t` is `s` with the blocks of `n` elements at `i` and at `j` exchanged. */
  ghost predicate Exchanged<T>(s: seq<T>, t: seq<T>, i: nat, j: nat, n: nat) {
    && |s| == |t| && i + n <= j && j + n <= |s|
    && (forall k :: i <= k < i + n ==> t[k] == s[k - i + j])
    && (forall k :: j <= k < j + n ==> t[k] == s[k - j + i])
    && (forall k :: 0 <= k < |s| && !(i <= k < i + n) && !(j <= k < j + n) ==> t[k] == s[k])
  }

  /** The same under a name that keeps its quantifiers out of the proofs that only pass it on. */
  ghost predicate BlocksExchanged<T>(s: seq<T>, t: seq<T>, i: nat, j: nat, n: nat) {
    Exchanged(s, t, i, j, n)
  }

  lemma ExchangedStep<T>(s0: seq<T>, s: seq<T>, t: seq<T>, i: nat, j: nat, m: nat)
    requires BlocksExchanged(s0, s, i, j, m) && i + m < j && j + m < |s| && Swapped(s, t, i + m, j + m)
    ensures BlocksExchanged(s0, t, i, j, m + 1)
  {
  }

  /** Exchanges two disjoint blocks element by element. */
  method VecSwap<T(!new)>(a: array<T>, i: nat, j: nat, n: nat, ghost lo: nat, ghost hi: nat)
    requires lo <= i && i + n <= j && j + n <= hi <= a.Length
    modifies a
    ensures Rearranged(old(a[..]), a[..], lo, hi)
    ensures BlocksExchanged(old(a[..]), a[..], i, j, n)
  {
    ghost var s0 := a[..];
    RearrangedSame(s0, lo, hi);
    assert BlocksExchanged(s0, s0, i, j, 0);
    hide *;
    var m := 0;
    while m < n
      invariant m <= n
      invariant Rearranged(s0, a[..], lo, hi)
      invariant BlocksExchanged(s0, a[..], i, j, m)
    {
      ghost var s := a[..];
      Swap(a, i + m, j + m, lo, hi);
      RearrangedTrans(s0, s, a[..], lo, hi);
      ExchangedStep(s0, s, a[..], i, j, m);
      m := m + 1;
    }
  }

  function Min(x: nat, y: nat): (m: nat)
    ensures m <= x && m <= y && (m == x || m == y)
  {
    if x < y then x else y
  }

  /** The order of the three groups once the equal elements are back in the middle. */
  ghost predicate Grouped<T>(cmp: (T, T) -> int, s: seq<T>, lo: nat, hi: nat, p: T, below: nat, above: nat) {
    && lo + below + above < hi <= |s|
    && AllBelow(cmp, s, lo, lo + below, p)
    && AllEqual(cmp, s, lo + below, hi - above, p)
    && AllAbove(cmp, s, hi - above, hi, p)
  }

  /** Only the equal elements at the right end still have to move. */
  ghost predicate HalfGathered<T>(cmp: (T, T) -> int, t: seq<T>, lo: nat, hi: nat, p: T,
                                  mid: nat, pb: nat, pd: nat) {
    && lo <= mid < pb <= pd + 1 && pd < hi <= |t|
    && AllBelow(cmp, t, lo, mid, p) && AllEqual(cmp, t, mid, pb, p)
    && AllAbove(cmp, t, pb, pd + 1, p) && AllEqual(cmp, t, pd + 1, hi, p)
  }

  lemma HalfGatheredBounds<T>(cmp: (T, T) -> int, t: seq<T>, lo: nat, hi: nat, p: T,
                              mid: nat, pb: nat, pd: nat)
    requires HalfGathered(cmp, t, lo, hi, p, mid, pb, pd)
    ensures lo <= mid < pb <= pd + 1 && pd < hi <= |t|
  {
  }

  /** The first block exchange moves the equal elements at the left end behind the smaller ones. */
  lemma GatherLeft<T(!new)>(cmp: (T, T) -> int, s: seq<T>, t: seq<T>, lo: nat, hi: nat, p: T,
                            pa: nat, pb: nat, pc: nat, pd: nat)
    requires Regions(cmp, s, lo, hi, p, pa, pb, pc, pd) && pb == pc + 1
    requires var r := Min(pa - lo, pb - pa); BlocksExchanged(s, t, lo, pb - r, r)
    ensures HalfGathered(cmp, t, lo, hi, p, lo + (pb - pa), pb, pd)
  {
  }

  /** The second one moves those at the right end before the greater ones. */
  lemma GatherRight<T(!new)>(cmp: (T, T) -> int, t: seq<T>, u: seq<T>, lo: nat, hi: nat, p: T,
                             mid: nat, pb: nat, pd: nat)
    requires HalfGathered(cmp, t, lo, hi, p, mid, pb, pd)
    requires var r := Min(pd + 1 - pb, hi - pd - 1); BlocksExchanged(t, u, pb, hi - r, r)
    ensures Grouped(cmp, u, lo, hi, p, mid - lo, pd + 1 - pb)
  {
  }

  method GatherFromLeft<T(!new)>(a: array<T>, cmp: (T, T) -> int, lo: nat, ghost hi: nat, ghost p: T,
                                 pa: nat, pb: nat, ghost pc: nat, ghost pd: nat)
    requires Regions(cmp, a[..], lo, hi, p, pa, pb, pc, pd) && pb == pc + 1
    modifies a
    ensures Rearranged(old(a[..]), a[..], lo, hi)
    ensures HalfGathered(cmp, a[..], lo, hi, p, lo + (pb - pa), pb, pd)
  {
    ghost var s := a[..];
    RegionsBounds(cmp, s, lo, hi, p, pa, pb, pc, pd);
    hide *;
    var r := Min(pa - lo, pb - pa);
    VecSwap(a, lo, pb - r, r, lo, hi);
    GatherLeft(cmp, s, a[..], lo, hi, p, pa, pb, pc, pd);
  }

  method GatherFromRight<T(!new)>(a: array<T>, cmp: (T, T) -> int, ghost lo: nat, hi: nat, ghost p: T,
                                  ghost mid: nat, pb: nat, pd: nat)
    requires HalfGathered(cmp, a[..], lo, hi, p, mid, pb, pd)
    modifies a
    ensures Rearranged(old(a[..]), a[..], lo, hi)
    ensures Grouped(cmp, a[..], lo, hi, p, mid - lo, pd + 1 - pb)
  {
    ghost var t := a[..];
    HalfGatheredBounds(cmp, t, lo, hi, p, mid, pb, pd);
    hide *;
    var r := Min(pd + 1 - pb, hi - pd - 1);
    VecSwap(a, pb, hi - r, r, lo, hi);
    GatherRight(cmp, t, a[..], lo, hi, p, mid, pb, pd);
  }

  /** Moves the two outer groups of equal elements between the smaller and the greater ones. */
  method Gather<T(!new)>(a: array<T>, cmp: (T, T) -> int, lo: nat, hi: nat, ghost p: T,
                         pa: nat, pb: nat, pc: nat, pd: nat)
    requires Regions(cmp, a[..], lo, hi, p, pa, pb, pc, pd) && pb == pc + 1
    modifies a
    ensures Rearranged(old(a[..]), a[..], lo, hi)
    ensures Grouped(cmp, a[..], lo, hi, p, pb - pa, pd - pc)
  {
    ghost var s := a[..];
    RegionsBounds(cmp, s, lo, hi, p, pa, pb, pc, pd);
    hide *;
    GatherFromLeft(a, cmp, lo, hi, p, pa, pb, pc, pd);
    ghost var t := a[..];
    GatherFromRight(a, cmp, lo, hi, p, lo + (pb - pa), pb, pd);
    RearrangedTrans(s, t, a[..], lo, hi);
  }

  /** What partial sorting of `lo..hi` for the window `l..r` achieves. */
  ghost predicate SettledWindow<T>(cmp: (T, T) -> int, s: seq<T>, lo: nat, hi: nat, l: nat, r: nat) {
    forall i :: lo <= i < hi && l <= i <= r ==> Settled(cmp, s, lo, hi, i)
  }

  /** Everything in `lo..mid` is less than or equal to everything in `mid..hi`. */
  ghost predicate Split<T>(cmp: (T, T) -> int, s: seq<T>, lo: nat, mid: nat, hi: nat) {
    hi <= |s| && forall i, j :: lo <= i < mid <= j < hi ==> Compare(cmp, s[i], s[j]) <= 0
  }

  /** Smaller, equal and greater groups compare as groups, and the equal group is settled. */
  lemma GroupsOrdered<T(!new)>(cmp: (T, T) -> int, s: seq<T>, lo: nat, hi: nat, p: T, below: nat, above: nat,
                               l: nat, r: nat)
    requires TotalPreorder(cmp) && Grouped(cmp, s, lo, hi, p, below, above)
    ensures Split(cmp, s, lo, lo + below, hi) && Split(cmp, s, lo, hi - above, hi)
    ensures SettledWindow(cmp, s, lo + below, hi - above, l, r)
  {
    forall i, j | lo <= i < hi && lo <= j < hi && Compare(cmp, s[i], p) <= 0 && Compare(cmp, s[j], p) >= 0
      ensures Compare(cmp, s[i], s[j]) <= 0
    {
      assert Consider(s[i], p, s[j]);
      assert Compare(cmp, p, s[j]) <= 0;
    }
  }

  /** Permuting one side of a split keeps it split. */
  lemma SplitStable<T>(cmp: (T, T) -> int, s: seq<T>, t: seq<T>, lo: nat, mid: nat, hi: nat, lo': nat, hi': nat)
    requires Split(cmp, s, lo, mid, hi) && Rearranged(s, t, lo', hi') && lo <= mid <= hi
    requires (lo <= lo' && hi' <= mid) || (mid <= lo' && hi' <= hi)
    ensures Split(cmp, t, lo, mid, hi)
  {
    RearrangedOutside(s, t, lo', hi');
    forall i, j | lo <= i < mid <= j < hi ensures Compare(cmp, t[i], t[j]) <= 0 {
      var i', j' := i, j;
      if lo' <= i < hi' { i' := RearrangedFrom(s, t, lo', hi', i); }
      if lo' <= j < hi' { j' := RearrangedFrom(s, t, lo', hi', j); }
      assert Compare(cmp, s[i'], s[j']) <= 0;
    }
  }

  /** The two sides of a split can be settled one after the other. */
  lemma SettledJoins<T>(cmp: (T, T) -> int, s: seq<T>, lo: nat, mid: nat, hi: nat, l: nat, r: nat)
    requires lo <= mid <= hi && Split(cmp, s, lo, mid, hi)
    requires SettledWindow(cmp, s, lo, mid, l, r) && SettledWindow(cmp, s, mid, hi, l, r)
    ensures SettledWindow(cmp, s, lo, hi, l, r)
  {
    forall i | lo <= i < hi && l <= i <= r ensures Settled(cmp, s, lo, hi, i) {
      if i < mid { assert Settled(cmp, s, lo, mid, i); } else { assert Settled(cmp, s, mid, hi, i); }
    }
  }

  /** What happens after `hi` does not unsettle `lo..hi`. */
  lemma SettledStable<T>(cmp: (T, T) -> int, s: seq<T>, t: seq<T>, lo: nat, hi: nat, lo': nat, hi': nat,
                         l: nat, r: nat)
    requires SettledWindow(cmp, s, lo, hi, l, r) && Rearranged(s, t, lo', hi') && hi <= |s|
    requires hi <= lo' || hi' <= lo
    ensures SettledWindow(cmp, t, lo, hi, l, r)
  {
    RearrangedOutside(s, t, lo', hi');
    forall i | lo <= i < hi && l <= i <= r ensures Settled(cmp, t, lo, hi, i) {
      assert Settled(cmp, s, lo, hi, i);
    }
  }

  lemma SplitShrinks<T>(cmp: (T, T) -> int, s: seq<T>, lo: nat, mid: nat, hi: nat, hi': nat)
    requires Split(cmp, s, lo, mid, hi) && hi' <= hi
    ensures Split(cmp, s, lo, mid, hi')
  {
  }

  lemma SortedSettles<T(!new)>(cmp: (T, T) -> int, s: seq<T>, lo: nat, hi: nat, l: nat, r: nat)
    requires Sorted(cmp, s, lo, hi)
    ensures SettledWindow(cmp, s, lo, hi, l, r)
  {
  }

  /** The test that lets a range be skipped: both ends of the window lie on one side of it. */
  predicate Skipped(lo: nat, hi: nat, l: nat, r: nat)
    requires lo < hi
  {
    (l < lo && r < lo) || (l > hi - 1 && r > hi - 1)
  }

  predicate Within(i: nat, lo: nat, hi: nat) {
    lo <= i < hi
  }

  /** A range is skipped if and only if no position of it is in the window. */
  lemma SkippedIff(lo: nat, hi: nat, l: nat, r: nat)
    requires lo < hi && l <= r
    ensures Skipped(lo, hi, l, r) <==> forall i :: Within(i, lo, hi) ==> !Within(i, l, r + 1)
  {
    if !Skipped(lo, hi, l, r) {
      var i := if l < lo then lo else l;
      assert Within(i, lo, hi) && Within(i, l, r + 1);
    }
  }

  /** A skipped range, or one of at most one element, needs no work. */
  lemma NothingWanted<T>(cmp: (T, T) -> int, s: seq<T>, lo: nat, hi: nat, l: nat, r: nat)
    requires lo <= hi <= |s| && (hi <= lo + 1 || Skipped(lo, hi, l, r))
    ensures SettledWindow(cmp, s, lo, hi, l, r)
  {
  }

  /** Once the smaller group is settled, so is everything up to the greater group. */
  lemma LeftSettled<T>(cmp: (T, T) -> int, s: seq<T>, t: seq<T>, lo: nat, left: nat, mid: nat, hi: nat,
                       l: nat, r: nat)
    requires lo <= left <= mid <= hi <= |s| && Rearranged(s, t, lo, left)
    requires Split(cmp, s, lo, left, hi) && Split(cmp, s, lo, mid, hi) && SettledWindow(cmp, s, left, mid, l, r)
    requires SettledWindow(cmp, t, lo, left, l, r)
    ensures Rearranged(s, t, lo, hi) && Split(cmp, t, lo, mid, hi) && SettledWindow(cmp, t, lo, mid, l, r)
  {
    hide Rearranged, Split, SettledWindow;
    RearrangedWiden(s, t, lo, left, lo, hi);
    SplitStable(cmp, s, t, lo, left, hi, lo, left);
    SplitStable(cmp, s, t, lo, mid, hi, lo, left);
    SettledStable(cmp, s, t, left, mid, lo, left, l, r);
    SplitShrinks(cmp, t, lo, left, hi, mid);
    SettledJoins(cmp, t, lo, left, mid, l, r);
  }

  /** Brings `lo..hi` into three groups around a pivot; false when no exchange was needed and the
      range is better sorted by insertion. */
  method Regroup<T(!new)>(a: array<T>, cmp: (T, T) -> int, lo: nat, hi: nat)
    returns (swapped: bool, below: nat, above: nat, ghost p: T)
    requires TotalPreorder(cmp) && lo + 7 <= hi <= a.Length
    modifies a
    ensures Rearranged(old(a[..]), a[..], lo, hi)
    ensures swapped ==> lo + below + above < hi && Grouped(cmp, a[..], lo, hi, p, below, above)
  {
    hide *;
    ghost var s0 := a[..];
    var pm := PivotIndex(a[..], lo, hi - lo, cmp);
    Swap(a, lo, pm, lo, hi);
    ghost var s1 := a[..];
    var pa, pb, pc, pd;
    pa, pb, pc, pd, swapped, p := Partition(a, cmp, lo, hi);
    ghost var s2 := a[..];
    RearrangedTrans(s0, s1, s2, lo, hi);
    RegionsBounds(cmp, s2, lo, hi, p, pa, pb, pc, pd);
    below, above := pb - pa, pd - pc;
    if swapped {
      Gather(a, cmp, lo, hi, p, pa, pb, pc, pd);
      RearrangedTrans(s0, s2, a[..], lo, hi);
    }
  }

  /** Settles the smaller group, and with it everything up to the greater group. */
  method SettleLeft<T(!new)>(a: array<T>, cmp: (T, T) -> int, lo: nat, below: nat, ghost mid: nat, ghost hi: nat,
                             l: nat, r: nat)
    requires TotalPreorder(cmp) && lo + below <= mid <= hi <= a.Length
    requires Split(cmp, a[..], lo, lo + below, hi) && Split(cmp, a[..], lo, mid, hi)
    requires SettledWindow(cmp, a[..], lo + below, mid, l, r)
    modifies a
    ensures Rearranged(old(a[..]), a[..], lo, hi)
    ensures Split(cmp, a[..], lo, mid, hi) && SettledWindow(cmp, a[..], lo, mid, l, r)
    decreases below, 2
  {
    hide Rearranged, Split, SettledWindow, TotalPreorder;
    ghost var s := a[..];
    if below > 1 && !Skipped(lo, lo + below, l, r) {
      Sort(a, cmp, lo, below, l, r);
    } else {
      RearrangedSame(s, lo, lo + below);
      NothingWanted(cmp, s, lo, lo + below, l, r);
    }
    LeftSettled(cmp, s, a[..], lo, lo + below, mid, hi, l, r);
  }

  /** Sorts the whole range by insertion. */
  method SettleByInsertion<T(!new)>(a: array<T>, cmp: (T, T) -> int, lo: nat, hi: nat, l: nat, r: nat)
    requires TotalPreorder(cmp) && lo <= hi <= a.Length
    modifies a
    ensures Rearranged(old(a[..]), a[..], lo, hi)
    ensures SettledWindow(cmp, a[..], lo, hi, l, r)
  {
    hide *;
    InsertionSort(a, cmp, lo, hi);
    SortedSettles(cmp, a[..], lo, hi, l, r);
  }

  /** One turn of `_pqsort` on `lo..hi`: either it is done, or only `mid..hi` is left. */
  method Turn<T(!new)>(a: array<T>, cmp: (T, T) -> int, lo: nat, hi: nat, l: nat, r: nat)
    returns (done: bool, mid: nat)
    requires TotalPreorder(cmp) && lo <= hi <= a.Length
    modifies a
    ensures Rearranged(old(a[..]), a[..], lo, hi)
    ensures done ==> SettledWindow(cmp, a[..], lo, hi, l, r)
    ensures !done ==> lo < mid < hi && Split(cmp, a[..], lo, mid, hi) && SettledWindow(cmp, a[..], lo, mid, l, r)
    decreases hi - lo, 0
  {
    hide Rearranged, Sorted, Split, SettledWindow, Grouped, TotalPreorder;
    ghost var s0, p := a[..], *;
    RearrangedSame(s0, lo, hi);
    done, mid := true, lo;
    var swapped, below, above := false, 0, 0;
    if hi - lo >= 7 {
      swapped, below, above, p := Regroup(a, cmp, lo, hi);
    }
    ghost var s1 := a[..];
    if !swapped {
      SettleByInsertion(a, cmp, lo, hi, l, r);
      RearrangedTrans(s0, s1, a[..], lo, hi);
      return;
    }
    GroupsOrdered(cmp, s1, lo, hi, p, below, above, l, r);
    mid := hi - above;
    SettleLeft(a, cmp, lo, below, mid, hi, l, r);
    RearrangedTrans(s0, s1, a[..], lo, hi);
    done := !(above > 1 && !Skipped(mid, hi, l, r));
    if done {
      NothingWanted(cmp, a[..], mid, hi, l, r);
      SettledJoins(cmp, a[..], lo, mid, hi, l, r);
    }
  }

  lemma SplitJoins<T>(cmp: (T, T) -> int, s: seq<T>, lo: nat, at: nat, mid: nat, hi: nat)
    requires Split(cmp, s, lo, at, hi) && Split(cmp, s, at, mid, hi) && at <= mid <= hi
    ensures Split(cmp, s, lo, mid, hi)
  {
  }

  lemma SplitAtEnd<T>(cmp: (T, T) -> int, s: seq<T>, lo: nat, hi: nat)
    requires lo <= hi <= |s|
    ensures Split(cmp, s, lo, hi, hi) && Split(cmp, s, lo, lo, hi)
  {
  }

  /** A turn on `at..hi` that settles `at..mid` settles all of `lo..mid`. */
  lemma TurnSettles<T>(cmp: (T, T) -> int, s: seq<T>, t: seq<T>, lo: nat, at: nat, mid: nat, hi: nat,
                       l: nat, r: nat)
    requires lo <= at <= mid <= hi <= |s| && Rearranged(s, t, at, hi)
    requires Split(cmp, s, lo, at, hi) && SettledWindow(cmp, s, lo, at, l, r)
    requires Split(cmp, t, at, mid, hi) || mid == hi
    requires SettledWindow(cmp, t, at, mid, l, r)
    ensures Rearranged(s, t, lo, hi) && Split(cmp, t, lo, mid, hi) && SettledWindow(cmp, t, lo, mid, l, r)
  {
    hide Rearranged, Split, SettledWindow;
    assert |s| == |t| by { RearrangedOutside(s, t, at, hi); }
    RearrangedWiden(s, t, at, hi, lo, hi);
    SplitStable(cmp, s, t, lo, at, hi, at, hi);
    SettledStable(cmp, s, t, lo, at, at, hi, l, r);
    SplitAtEnd(cmp, t, at, hi);
    SplitShrinks(cmp, t, lo, at, hi, mid);
    SettledJoins(cmp, t, lo, at, mid, l, r);
    SplitJoins(cmp, t, lo, at, mid, hi);
  }

  /** `_pqsort` on `n` elements from `lo` (the `goto loop` is the while). */
  method Sort<T(!new)>(a: array<T>, cmp: (T, T) -> int, lo: nat, n: nat, l: nat, r: nat)
    requires TotalPreorder(cmp) && lo + n <= a.Length
    modifies a
    ensures Rearranged(old(a[..]), a[..], lo, lo + n)
    ensures SettledWindow(cmp, a[..], lo, lo + n, l, r)
    decreases n, 1
  {
    ghost var s0 := a[..];
    var hi := lo + n;
    RearrangedSame(s0, lo, hi);
    assert Split(cmp, s0, lo, lo, hi) && SettledWindow(cmp, s0, lo, lo, l, r);
    hide *;
    var at := lo;
    var done := false;
    while !done
      invariant lo <= at <= hi
      invariant Rearranged(s0, a[..], lo, hi)
      invariant Split(cmp, a[..], lo, at, hi) && SettledWindow(cmp, a[..], lo, at, l, r)
      invariant done ==> at == hi
      decreases hi - at, !done
    {
      ghost var s := a[..];
      var mid;
      done, mid := Turn(a, cmp, at, hi, l, r);
      if done { mid := hi; }
      ghost var t := a[..];
      TurnSettles(cmp, s, t, lo, at, mid, hi, l, r);
      RearrangedTrans(s0, s, t, lo, hi);
      at := mid;
    }
  }

  /** A settled window of a whole sequence is what a full sort would leave there. */
  lemma WindowSorted<T(!new)>(cmp: (T, T) -> int, s: seq<T>, l: nat, r: nat)
    requires SettledWindow(cmp, s, 0, |s|, l, r) && l <= r < |s|
    ensures Sorted(cmp, s, l, r + 1) && Split(cmp, s, 0, l, r + 1) && Split(cmp, s, l, r + 1, |s|)
  {
    forall i, j | 0 <= i < j < |s| && (l <= i <= r || l <= j <= r) ensures Compare(cmp, s[i], s[j]) <= 0 {
      if l <= i <= r { assert Settled(cmp, s, 0, |s|, i); } else { assert Settled(cmp, s, 0, |s|, j); }
    }
  }

  /** `pqsort`: afterwards the array is a permutation of what it was, positions `lrange..rrange`
      hold what a full sort would put there, in order, with nothing greater before them and nothing
      smaller after them. */
  method PartialSort<T(!new)>(a: array<T>, cmp: (T, T) -> int, lrange: nat, rrange: nat)
    requires TotalPreorder(cmp) && lrange <= rrange < a.Length
    modifies a
    ensures multiset(a[..]) == multiset(old(a[..]))
    ensures Sorted(cmp, a[..], lrange, rrange + 1)
    ensures Split(cmp, a[..], 0, lrange, rrange + 1)
    ensures Split(cmp, a[..], lrange, rrange + 1, a.Length)
  {
    Sort(a, cmp, 0, a.Length, lrange, rrange);
    assert old(a[..])[0..a.Length] == old(a[..]) && a[..][0..a.Length] == a[..];
    WindowSorted(cmp, a[..], lrange, rrange);
  }
}
