/** intset.c: a sorted set of integers packed in a byte array, whose elements are widened in place when a
    value does not fit. */
module Intset {
  import opened Bytes
  import opened LittleEndian

  const ENC_INT16 := 2
  const ENC_INT32 := 4
  const ENC_INT64 := 8
  const INT16_MIN := -0x8000
  const INT16_MAX := 0x7fff
  const INT32_MIN := -0x8000_0000
  const INT32_MAX := 0x7fff_ffff
  const MAX_BYTES := 0x8000_0000

  type Int64 = v: int | -0x8000_0000_0000_0000 <= v <= 0x7fff_ffff_ffff_ffff

  predicate IsEncoding(enc: nat) {
    enc == ENC_INT16 || enc == ENC_INT32 || enc == ENC_INT64
  }

  /** `_intsetValueEncoding`: the narrowest encoding a value fits. */
  function ValueEncoding(v: Int64): (enc: nat)
    ensures IsEncoding(enc)
    ensures forall e :: IsEncoding(e) ==> (Fits(v, e) <==> enc <= e)
  {
    Widths();
    if v < INT32_MIN || v > INT32_MAX then ENC_INT64
    else if v < INT16_MIN || v > INT16_MAX then ENC_INT32
    else ENC_INT16
  }

  /** The byte offset of the element at `pos`. */
  function At(pos: nat, enc: nat): (r: nat)
    ensures r >= pos
  {
    if enc == ENC_INT64 then pos * 8 else if enc == ENC_INT32 then pos * 4 else pos * 2
  }

  /** `_intsetGetEncoded` on the bytes of the array. */
  function GetEncoded(c: bytes, pos: nat, enc: nat): (v: Int64)
    requires IsEncoding(enc) && At(pos + 1, enc) <= |c|
    ensures Fits(v, enc)
  {
    SignedFits(c[At(pos, enc)..At(pos + 1, enc)]);
    Widths();
    Signed(c[At(pos, enc)..At(pos + 1, enc)])
  }

  /** The values an array holds. */
  function Elements(c: bytes, length: nat, enc: nat): (r: seq<Int64>)
    requires IsEncoding(enc) && At(length, enc) <= |c|
    ensures |r| == length
  {
    seq(length, i requires 0 <= i < length => GetEncoded(c, i, enc))
  }

  ghost predicate Sorted(e: seq<Int64>) {
    forall i, j :: 0 <= i < j < |e| ==> e[i] < e[j]
  }

  function Splice(c: bytes, at: nat, b: bytes): (r: bytes)
    requires at + |b| <= |c|
    ensures |r| == |c|
  {
    c[..at] + b + c[at + |b|..]
  }

  // ---- reading and writing elements

  lemma GetSet(c: bytes, pos: nat, v: Int64, enc: nat)
    requires IsEncoding(enc) && At(pos + 1, enc) <= |c| && Fits(v, enc)
    ensures GetEncoded(Splice(c, At(pos, enc), PutSigned(v, enc)), pos, enc) == v
  {
    var b := PutSigned(v, enc);
    assert Splice(c, At(pos, enc), b)[At(pos, enc)..At(pos + 1, enc)] == b;
    SignedPut(v, enc);
  }

  /** A write outside the bytes of an element leaves it as it is. */
  lemma GetElsewhere(c: bytes, at: nat, b: bytes, pos: nat, enc: nat)
    requires IsEncoding(enc) && At(pos + 1, enc) <= |c| && at + |b| <= |c|
    requires At(pos + 1, enc) <= at || at + |b| <= At(pos, enc)
    ensures GetEncoded(Splice(c, at, b), pos, enc) == GetEncoded(c, pos, enc)
  {
    var lo, hi := At(pos, enc), At(pos + 1, enc);
    assert Splice(c, at, b)[lo..hi] == c[lo..hi];
  }

  /** Bytes that were moved hold the elements that were moved. */
  lemma GetSame(c: bytes, pos: nat, c': bytes, pos': nat, enc: nat)
    requires IsEncoding(enc) && At(pos + 1, enc) <= |c| && At(pos' + 1, enc) <= |c'|
    requires c[At(pos, enc)..At(pos + 1, enc)] == c'[At(pos', enc)..At(pos' + 1, enc)]
    ensures GetEncoded(c, pos, enc) == GetEncoded(c', pos', enc)
  {
  }

  /** `_intsetSet` with the encoding given. */
  method SetEncoded(c: array<byte>, pos: nat, value: Int64, enc: nat)
    requires IsEncoding(enc) && At(pos + 1, enc) <= c.Length && Fits(value, enc)
    modifies c
    ensures c[..] == Splice(old(c[..]), At(pos, enc), PutSigned(value, enc))
  {
    var b, at := PutSigned(value, enc), At(pos, enc);
    forall i | 0 <= i < enc { c[at + i] := b[i]; }
  }

  /** `zrealloc`: the bytes that are common to both sizes are kept. */
  method Realloc(c: array<byte>, size: nat) returns (r: array<byte>)
    ensures fresh(r) && r.Length == size
    ensures forall i :: 0 <= i < size && i < c.Length ==> r[i] == c[i]
  {
    r := new byte[size](i requires 0 <= i reads c => if i < c.Length then c[i] else 0);
  }

  /** `memmove`, whose source and target may overlap. */
  method MemMove(c: array<byte>, dst: nat, src: nat, n: nat)
    requires dst + n <= c.Length && src + n <= c.Length
    modifies c
    ensures c[..] == Splice(old(c[..]), dst, old(c[src..src + n]))
  {
    forall i | 0 <= i < n { c[dst + i] := c[src + i]; }
  }

  // ---- widening

  /** The state of the widening loop: the last elements are in the new form, the first still in the old. */
  ghost predicate Widening(c: bytes, e: seq<Int64>, left: nat, enc: nat, newenc: nat, prepend: nat) {
    && IsEncoding(enc) && IsEncoding(newenc) && enc < newenc && prepend <= 1 && left <= |e|
    && At(|e| + 1, newenc) <= |c|
    && Holds(c, e, 0, left, enc, 0)
    && Holds(c, e, left, |e|, newenc, prepend)
  }

  /** The elements from `lo` up to `hi` are there, `shift` places on. */
  ghost predicate Holds(c: bytes, e: seq<Int64>, lo: nat, hi: nat, enc: nat, shift: nat)
    requires IsEncoding(enc) && lo <= hi <= |e| && At(hi + shift, enc) <= |c|
  {
    forall i :: lo <= i < hi ==> GetEncoded(c, i + shift, enc) == e[i]
  }

  lemma Before(i: nat, j: nat, enc: nat, newenc: nat)
    requires IsEncoding(enc) && IsEncoding(newenc) && enc <= newenc && i <= j
    ensures At(i, enc) <= At(j, newenc) && At(j + 1, newenc) == At(j, newenc) + newenc
  {
  }

  /** What writing the element at `pos` does to all elements. */
  lemma SetEffect(c: bytes, pos: nat, v: Int64, enc: nat)
    requires IsEncoding(enc) && At(pos + 1, enc) <= |c| && Fits(v, enc)
    ensures var c' := Splice(c, At(pos, enc), PutSigned(v, enc));
      && GetEncoded(c', pos, enc) == v
      && (forall i: nat :: i != pos && At(i + 1, enc) <= |c| ==> GetEncoded(c', i, enc) == GetEncoded(c, i, enc))
  {
    GetSet(c, pos, v, enc);
    hide GetEncoded, Splice, PutSigned, Fits, At;
    var c' := Splice(c, At(pos, enc), PutSigned(v, enc));
    Before(pos, pos, enc, enc);
    forall i: nat | i != pos && At(i + 1, enc) <= |c|
      ensures GetEncoded(c', i, enc) == GetEncoded(c, i, enc)
    {
      if i < pos { Before(i + 1, pos, enc, enc); } else { Before(pos + 1, i, enc, enc); }
      GetElsewhere(c, At(pos, enc), PutSigned(v, enc), i, enc);
    }
  }

  /** The elements not read yet, still in the narrow encoding, lie before the place that is written. */
  lemma SetKeepsNarrow(c: bytes, e: seq<Int64>, left: nat, enc: nat, newenc: nat, pos: nat, v: Int64)
    requires IsEncoding(newenc) && At(pos + 1, newenc) <= |c| && Fits(v, newenc)
    requires IsEncoding(enc) && enc <= newenc && left <= pos && left < |e| && At(left + 1, enc) <= |c|
    requires Holds(c, e, 0, left + 1, enc, 0)
    ensures Holds(Splice(c, At(pos, newenc), PutSigned(v, newenc)), e, 0, left, enc, 0)
  {
    hide GetEncoded, Splice, PutSigned, Fits;
    var c' := Splice(c, At(pos, newenc), PutSigned(v, newenc));
    forall i | 0 <= i < left
      ensures GetEncoded(c', i + 0, enc) == e[i]
    {
      GetElsewhere(c, At(pos, newenc), PutSigned(v, newenc), i, enc);
      assert GetEncoded(c, i + 0, enc) == e[i];
    }
  }

  /** The elements widened before lie after the place that is written. */
  lemma SetKeepsWide(c: bytes, e: seq<Int64>, left: nat, newenc: nat, prepend: nat)
    requires IsEncoding(newenc) && left < |e| && At(|e| + prepend, newenc) <= |c| && Fits(e[left], newenc)
    requires Holds(c, e, left + 1, |e|, newenc, prepend)
    ensures At(left + prepend + 1, newenc) <= |c|
    ensures Holds(Splice(c, At(left + prepend, newenc), PutSigned(e[left], newenc)), e, left, |e|, newenc, prepend)
  {
    assert At(left + prepend + 1, newenc) <= |c|;
    hide GetEncoded, Splice, PutSigned, Fits;
    SetEffect(c, left + prepend, e[left], newenc);
  }

  lemma FitsWider(v: Int64, enc: nat, newenc: nat)
    requires IsEncoding(enc) && IsEncoding(newenc) && enc < newenc && Fits(v, enc)
    ensures Fits(v, newenc)
  {
    Widths();
  }

  /** One element more: its new place covers none of those not read yet. */
  lemma WidenOne(c: bytes, e: seq<Int64>, left: nat, enc: nat, newenc: nat, prepend: nat)
    requires Widening(c, e, left + 1, enc, newenc, prepend)
    ensures Fits(e[left], newenc) && At(left + prepend + 1, newenc) <= |c| && At(left + 1, enc) <= |c|
    ensures e[left] == GetEncoded(c, left, enc)
    ensures Widening(Splice(c, At(left + prepend, newenc), PutSigned(e[left], newenc)), e, left, enc, newenc, prepend)
  {
    assert GetEncoded(c, left + 0, enc) == e[left];
    FitsWider(e[left], enc, newenc);
    hide GetEncoded, Splice, PutSigned, Fits, Holds;
    SetKeepsWide(c, e, left, newenc, prepend);
    SetKeepsNarrow(c, e, left, enc, newenc, left + prepend, e[left]);
  }

  /** The loop of `intsetUpgradeAndAdd`, back to front. */
  method Widen(c: array<byte>, length: nat, enc: nat, newenc: nat, prepend: nat, ghost e: seq<Int64>)
    requires IsEncoding(enc) && IsEncoding(newenc) && |e| == length
    requires Widening(c[..], e, length, enc, newenc, prepend)
    modifies c
    ensures Widening(c[..], e, 0, enc, newenc, prepend)
  {
    hide Widening, GetEncoded, Splice, PutSigned, At;
    var n: nat := length;
    while n > 0
      invariant 0 <= n <= length && Widening(c[..], e, n, enc, newenc, prepend)
    {
      n := n - 1;
      WidenOne(c[..], e, n, enc, newenc, prepend);
      SetEncoded(c, n + prepend, GetEncoded(c[..], n, enc), newenc);
    }
  }

  /** The new value on the free end completes the widened array. */
  lemma WidenedAndSet(c: bytes, e: seq<Int64>, enc: nat, newenc: nat, prepend: nat, v: Int64)
    requires Widening(c, e, 0, enc, newenc, prepend) && Fits(v, newenc)
    ensures var pos := if prepend == 1 then 0 else |e|;
      Elements(Splice(c, At(pos, newenc), PutSigned(v, newenc)), |e| + 1, newenc)
      == if prepend == 1 then [v] + e else e + [v]
  {
    Widths();
    hide GetEncoded, Splice, PutSigned, Fits;
    SetEffect(c, if prepend == 1 then 0 else |e|, v, newenc);
  }

  // ---- moving the tail

  /** Room is made before the element at `pos`, and the new one is put there. */
  lemma MovedAndSet(c: bytes, e: seq<Int64>, enc: nat, pos: nat, v: Int64)
    requires IsEncoding(enc) && pos <= |e| && At(|e| + 1, enc) <= |c| && Elements(c, |e|, enc) == e && Fits(v, enc)
    ensures var c' := Splice(c, At(pos + 1, enc), c[At(pos, enc)..At(|e|, enc)]);
      Elements(Splice(c', At(pos, enc), PutSigned(v, enc)), |e| + 1, enc) == e[..pos] + [v] + e[pos..]
  {
    MovedUp(c, e, enc, pos);
    hide GetEncoded, Splice, PutSigned, Fits;
    var c' := Splice(c, At(pos + 1, enc), c[At(pos, enc)..At(|e|, enc)]);
    SetEffect(c', pos, v, enc);
    ElementsInserted(Splice(c', At(pos, enc), PutSigned(v, enc)), e, enc, pos, v);
  }

  lemma ElementsInserted(c: bytes, e: seq<Int64>, enc: nat, pos: nat, v: Int64)
    requires IsEncoding(enc) && pos <= |e| && At(|e| + 1, enc) <= |c|
    requires forall i :: 0 <= i < pos ==> GetEncoded(c, i, enc) == e[i]
    requires GetEncoded(c, pos, enc) == v
    requires forall i :: pos < i <= |e| ==> GetEncoded(c, i, enc) == e[i - 1]
    ensures Elements(c, |e| + 1, enc) == e[..pos] + [v] + e[pos..]
  {
    hide GetEncoded;
    var r := e[..pos] + [v] + e[pos..];
    assert forall i :: 0 <= i <= |e| ==> r[i] == if i < pos then e[i] else if i == pos then v else e[i - 1];
    hide Elements, At;
  }

  lemma ElementAt(c: bytes, length: nat, enc: nat, i: nat)
    requires IsEncoding(enc) && i < length && At(length, enc) <= |c|
    ensures At(i + 1, enc) <= |c| && Elements(c, length, enc)[i] == GetEncoded(c, i, enc)
  {
    hide GetEncoded;
  }

  /** Where the tail from `from` on has gone to `to`, an element of the tail is found at its new place. */
  lemma MovedElement(c: bytes, c': bytes, enc: nat, length: nat, from: nat, to: nat, i: nat)
    requires IsEncoding(enc) && from <= i < length && At(length, enc) <= |c|
    requires At(to, enc) + (At(length, enc) - At(from, enc)) <= |c|
    requires c' == Splice(c, At(to, enc), c[At(from, enc)..At(length, enc)])
    ensures At(i - from + to + 1, enc) <= |c|
    ensures GetEncoded(c', i - from + to, enc) == Elements(c, length, enc)[i]
  {
    MovedSlice(c, At(to, enc), At(from, enc), At(length, enc), At(i, enc), At(i + 1, enc));
    hide GetEncoded, Splice, Elements;
    GetSame(c, i, c', i - from + to, enc);
    ElementAt(c, length, enc, i);
  }

  /** An element before both places stays. */
  lemma KeptElement(c: bytes, c': bytes, enc: nat, length: nat, from: nat, to: nat, i: nat)
    requires IsEncoding(enc) && i < to && i < from <= length && At(length, enc) <= |c|
    requires At(to, enc) + (At(length, enc) - At(from, enc)) <= |c|
    requires c' == Splice(c, At(to, enc), c[At(from, enc)..At(length, enc)])
    ensures At(i + 1, enc) <= |c| && GetEncoded(c', i, enc) == Elements(c, length, enc)[i]
  {
    hide GetEncoded, Splice, Elements;
    GetElsewhere(c, At(to, enc), c[At(from, enc)..At(length, enc)], i, enc);
    ElementAt(c, length, enc, i);
  }

  lemma MovedUp(c: bytes, e: seq<Int64>, enc: nat, pos: nat)
    requires IsEncoding(enc) && pos <= |e| && At(|e| + 1, enc) <= |c| && Elements(c, |e|, enc) == e
    ensures var c' := Splice(c, At(pos + 1, enc), c[At(pos, enc)..At(|e|, enc)]);
      && (forall i :: 0 <= i < pos ==> GetEncoded(c', i, enc) == e[i])
      && (forall i :: pos < i <= |e| ==> GetEncoded(c', i, enc) == e[i - 1])
  {
    hide GetEncoded, Splice, Elements;
    var c' := Splice(c, At(pos + 1, enc), c[At(pos, enc)..At(|e|, enc)]);
    forall i | 0 <= i < pos
      ensures GetEncoded(c', i, enc) == e[i]
    {
      KeptElement(c, c', enc, |e|, pos, pos + 1, i);
    }
    forall i | pos < i <= |e|
      ensures GetEncoded(c', i, enc) == e[i - 1]
    {
      MovedElement(c, c', enc, |e|, pos, pos + 1, i - 1);
    }
  }

  /** The element at `pos` is overwritten with the tail. */
  lemma MovedOver(c: bytes, e: seq<Int64>, enc: nat, pos: nat)
    requires IsEncoding(enc) && pos < |e| && At(|e|, enc) <= |c| && Elements(c, |e|, enc) == e
    ensures var c' := Splice(c, At(pos, enc), c[At(pos + 1, enc)..At(|e|, enc)]);
      Elements(c', |e| - 1, enc) == e[..pos] + e[pos + 1..]
  {
    MovedDown(c, e, enc, pos);
    hide GetEncoded, Splice;
    ElementsRemoved(Splice(c, At(pos, enc), c[At(pos + 1, enc)..At(|e|, enc)]), e, enc, pos);
  }

  lemma MovedDown(c: bytes, e: seq<Int64>, enc: nat, pos: nat)
    requires IsEncoding(enc) && pos < |e| && At(|e|, enc) <= |c| && Elements(c, |e|, enc) == e
    ensures var c' := Splice(c, At(pos, enc), c[At(pos + 1, enc)..At(|e|, enc)]);
      && (forall i :: 0 <= i < pos ==> GetEncoded(c', i, enc) == e[i])
      && (forall i :: pos <= i < |e| - 1 ==> GetEncoded(c', i, enc) == e[i + 1])
  {
    hide GetEncoded, Splice, Elements;
    var c' := Splice(c, At(pos, enc), c[At(pos + 1, enc)..At(|e|, enc)]);
    forall i | 0 <= i < pos
      ensures GetEncoded(c', i, enc) == e[i]
    {
      KeptElement(c, c', enc, |e|, pos + 1, pos, i);
    }
    forall i | pos <= i < |e| - 1
      ensures GetEncoded(c', i, enc) == e[i + 1]
    {
      MovedElement(c, c', enc, |e|, pos + 1, pos, i + 1);
    }
  }

  lemma ElementsRemoved(c: bytes, e: seq<Int64>, enc: nat, pos: nat)
    requires IsEncoding(enc) && pos < |e| && At(|e|, enc) <= |c|
    requires forall i :: 0 <= i < pos ==> GetEncoded(c, i, enc) == e[i]
    requires forall i :: pos <= i < |e| - 1 ==> GetEncoded(c, i, enc) == e[i + 1]
    ensures Elements(c, |e| - 1, enc) == e[..pos] + e[pos + 1..]
  {
    hide GetEncoded;
    var r := e[..pos] + e[pos + 1..];
    assert forall i :: 0 <= i < |e| - 1 ==> r[i] == if i < pos then e[i] else e[i + 1];
    hide Elements, At;
  }

  lemma MovedSlice(c: bytes, dst: nat, src: nat, end: nat, lo: nat, hi: nat)
    requires src <= lo <= hi <= end <= |c| && dst + (end - src) <= |c|
    ensures Splice(c, dst, c[src..end])[dst + (lo - src)..dst + (hi - src)] == c[lo..hi]
  {
    SliceOfSlice(c, src, end, lo, hi);
    var s := Splice(c, dst, c[src..end]);
    assert s[dst..dst + (end - src)] == c[src..end];
    SliceOfSlice(s, dst, dst + (end - src), dst + (lo - src), dst + (hi - src));
  }

  /** Bytes past the elements do not matter. */
  lemma ElementsPrefix(c: bytes, c': bytes, length: nat, enc: nat)
    requires IsEncoding(enc) && At(length, enc) <= |c| && At(length, enc) <= |c'|
    requires c[..At(length, enc)] == c'[..At(length, enc)]
    ensures Elements(c, length, enc) == Elements(c', length, enc)
  {
    forall i | 0 <= i < length
      ensures GetEncoded(c, i, enc) == GetEncoded(c', i, enc)
    {
      SliceOfSlice(c, 0, At(length, enc), At(i, enc), At(i + 1, enc));
      SliceOfSlice(c', 0, At(length, enc), At(i, enc), At(i + 1, enc));
      GetSame(c, i, c', i, enc);
    }
  }

  // ---- the array of a set, before and after

  /** `intsetResize`: the elements that are common to both sizes are kept. */
  method Resize(c: array<byte>, length: nat, enc: nat, size: nat) returns (r: array<byte>)
    requires IsEncoding(enc) && At(length, enc) <= c.Length && At(length, enc) <= size
    ensures fresh(r) && r.Length == size && Elements(r[..], length, enc) == Elements(c[..], length, enc)
  {
    r := Realloc(c, size);
    assert r[..][..At(length, enc)] == c[..][..At(length, enc)];
    ElementsPrefix(r[..], c[..], length, enc);
  }

  /** `intsetMoveTail`. */
  method MoveTail(c: array<byte>, length: nat, enc: nat, from: nat, to: nat)
    requires IsEncoding(enc) && from <= length && At(length, enc) <= c.Length
    requires At(to, enc) + (At(length, enc) - At(from, enc)) <= c.Length
    modifies c
    ensures c[..] == Splice(old(c[..]), At(to, enc), old(c[..])[At(from, enc)..At(length, enc)])
  {
    hide Splice;
    assert c[At(from, enc)..At(length, enc)] == c[..][At(from, enc)..At(length, enc)];
    MemMove(c, At(to, enc), At(from, enc), At(length, enc) - At(from, enc));
  }

  /** The work of `intsetUpgradeAndAdd` on the array. */
  method UpgradedAndAdded(c: array<byte>, length: nat, enc: nat, value: Int64) returns (r: array<byte>)
    requires IsEncoding(enc) && At(length, enc) <= c.Length && ValueEncoding(value) > enc
    ensures fresh(r) && r.Length == At(length + 1, ValueEncoding(value))
    ensures var e := Elements(c[..], length, enc);
      Elements(r[..], length + 1, ValueEncoding(value)) == if value < 0 then [value] + e else e + [value]
  {
    var newenc := ValueEncoding(value);
    ghost var e := Elements(c[..], length, enc);
    var prepend := if value < 0 then 1 else 0;
    Before(length, length + 1, enc, newenc);
    r := Resize(c, length, enc, At(length + 1, newenc));
    StartWidening(r[..], e, enc, newenc, prepend);
    hide GetEncoded, Splice, PutSigned, Fits, Elements, Widening;
    Widen(r, length, enc, newenc, prepend, e);
    WidenedAndSet(r[..], e, enc, newenc, prepend, value);
    SetEncoded(r, if prepend == 1 then 0 else length, value, newenc);
  }

  /** The elements from `pos` on move up by one, and the value takes the place. */
  method OpenGap(r: array<byte>, length: nat, enc: nat, pos: nat, value: Int64)
    requires IsEncoding(enc) && At(length + 1, enc) <= r.Length && ValueEncoding(value) <= enc && pos <= length
    requires At(length, enc) <= r.Length
    modifies r
    ensures var e := old(Elements(r[..], length, enc));
      Elements(r[..], length + 1, enc) == e[..pos] + [value] + e[pos..]
  {
    MovedAndSet(r[..], Elements(r[..], length, enc), enc, pos, value);
    hide GetEncoded, Splice, PutSigned, Fits, Elements;
    if pos < length {
      MoveTail(r, length, enc, pos, pos + 1);
    } else {
      SpliceNothing(r[..], At(pos + 1, enc), At(pos, enc));
    }
    SetEncoded(r, pos, value, enc);
  }

  /** The work of `intsetAdd` on the array, when the value fits and is not there. */
  method Inserted(c: array<byte>, length: nat, enc: nat, pos: nat, value: Int64) returns (r: array<byte>)
    requires IsEncoding(enc) && At(length, enc) <= c.Length && ValueEncoding(value) <= enc && pos <= length
    ensures fresh(r) && r.Length == At(length + 1, enc)
    ensures var e := Elements(c[..], length, enc);
      Elements(r[..], length + 1, enc) == e[..pos] + [value] + e[pos..]
  {
    Before(length, length + 1, enc, enc);
    hide GetEncoded, Splice, Elements, At;
    r := Resize(c, length, enc, At(length + 1, enc));
    OpenGap(r, length, enc, pos, value);
  }

  /** The elements behind `pos` move down by one. */
  method CloseGap(c: array<byte>, length: nat, enc: nat, pos: nat)
    requires IsEncoding(enc) && At(length, enc) <= c.Length && pos < length
    modifies c
    ensures At(length - 1, enc) <= c.Length
    ensures var e := old(Elements(c[..], length, enc));
      Elements(c[..], length - 1, enc) == e[..pos] + e[pos + 1..]
  {
    MovedOver(c[..], Elements(c[..], length, enc), enc, pos);
    Before(length - 1, length, enc, enc);
    hide GetEncoded, Splice, Elements;
    if pos < length - 1 {
      MoveTail(c, length, enc, pos + 1, pos);
    } else {
      SpliceNothing(c[..], At(pos, enc), At(pos + 1, enc));
    }
  }

  /** The work of `intsetRemove` on the array, when the value is at `pos`. */
  method Removed(c: array<byte>, length: nat, enc: nat, pos: nat) returns (r: array<byte>)
    requires IsEncoding(enc) && At(length, enc) <= c.Length && pos < length
    modifies c
    ensures fresh(r) && r.Length == At(length - 1, enc)
    ensures var e := old(Elements(c[..], length, enc));
      Elements(r[..], length - 1, enc) == e[..pos] + e[pos + 1..]
  {
    hide GetEncoded, Splice, Elements, At;
    CloseGap(c, length, enc, pos);
    r := Resize(c, length - 1, enc, At(length - 1, enc));
  }

  lemma SpliceNothing(c: bytes, at: nat, from: nat)
    requires at <= |c| && from <= |c|
    ensures c == Splice(c, at, c[from..from])
  {
  }

  // ---- the set

  ghost function Members(e: seq<Int64>): set<Int64> {
    set i | 0 <= i < |e| :: e[i]
  }

  /** Where a value is, or where it belongs. */
  ghost predicate Position(e: seq<Int64>, v: Int64, pos: nat) {
    && pos <= |e|
    && (forall i :: 0 <= i < pos ==> e[i] < v)
    && (forall i :: pos <= i < |e| ==> v <= e[i])
  }

  lemma InsertKeepsOrder(e: seq<Int64>, v: Int64, pos: nat)
    requires Sorted(e) && Position(e, v, pos) && v !in Members(e)
    ensures Sorted(e[..pos] + [v] + e[pos..]) && Members(e[..pos] + [v] + e[pos..]) == Members(e) + {v}
  {
    var r := e[..pos] + [v] + e[pos..];
    forall i | pos <= i < |e|
      ensures v < e[i]
    {
      assert e[i] in Members(e);
    }
    assert Inserts(e, r, v, pos);
    InsertedMembers(e, r, v, pos);
    hide Members;
  }

  /** `r` is `e` with `v` put in at `pos`, element by element. */
  ghost predicate Inserts(e: seq<Int64>, r: seq<Int64>, v: Int64, pos: nat) {
    && pos <= |e| && |r| == |e| + 1 && r[pos] == v
    && (forall i :: 0 <= i < pos ==> r[i] == e[i])
    && (forall i :: pos <= i < |e| ==> e[i] == r[i + 1])
    && (forall i :: pos < i < |r| ==> r[i] == e[i - 1])
  }

  lemma InsertedMembers(e: seq<Int64>, r: seq<Int64>, v: Int64, pos: nat)
    requires Inserts(e, r, v, pos)
    ensures Members(r) == Members(e) + {v}
  {
    forall x | x in Members(e)
      ensures x in Members(r)
    {
      var i :| 0 <= i < |e| && e[i] == x;
      assert r[if i < pos then i else i + 1] == x;
    }
    assert r[pos] == v;
  }

  lemma RemoveKeepsOrder(e: seq<Int64>, pos: nat)
    requires Sorted(e) && pos < |e|
    ensures Sorted(e[..pos] + e[pos + 1..]) && Members(e[..pos] + e[pos + 1..]) == Members(e) - {e[pos]}
  {
    var r := e[..pos] + e[pos + 1..];
    assert forall i :: 0 <= i < |r| ==> r[i] == e[if i < pos then i else i + 1];
    forall x | x in Members(e) - {e[pos]}
      ensures x in Members(r)
    {
      var i :| 0 <= i < |e| && e[i] == x;
      assert r[if i < pos then i else i - 1] == x;
    }
  }

  /** The elements before `min` are smaller than the value, those after `max` greater. */
  ghost predicate Between(e: seq<Int64>, v: Int64, min: int, max: int) {
    && 0 <= min <= max + 1 <= |e|
    && (forall i :: 0 <= i < min ==> e[i] < v)
    && (forall i :: max < i < |e| ==> v < e[i])
  }

  lemma EndTests(e: seq<Int64>, v: Int64)
    requires Sorted(e) && e != []
    ensures v > e[|e| - 1] ==> v !in e && Position(e, v, |e|)
    ensures v < e[0] ==> v !in e && Position(e, v, 0)
    ensures Between(e, v, 0, |e| - 1)
  {
  }

  lemma Halved(e: seq<Int64>, v: Int64, min: int, max: int, mid: int)
    requires Sorted(e) && Between(e, v, min, max) && 0 <= min <= mid <= max < |e|
    ensures v > e[mid] ==> Between(e, v, mid + 1, max)
    ensures v < e[mid] ==> Between(e, v, min, mid - 1)
    ensures v == e[mid] ==> v in e && Position(e, v, mid)
  {
  }

  lemma NothingThere(e: seq<Int64>, v: Int64, min: nat)
    requires Sorted(e) && Between(e, v, min, min - 1)
    ensures v !in e && Position(e, v, min)
  {
  }

  class IntSet {
    var encoding: nat
    var length: nat
    var contents: array<byte>

    ghost predicate Valid()
      reads this, contents
    {
      IsEncoding(encoding) && contents.Length == At(length, encoding) && Sorted(Values())
    }

    ghost function Values(): (e: seq<Int64>)
      requires IsEncoding(encoding) && contents.Length >= At(length, encoding)
      reads this, contents
      ensures |e| == length
    {
      Elements(contents[..], length, encoding)
    }

    /** `intsetNew`. */
    constructor ()
      ensures Valid() && fresh(contents) && Values() == [] && encoding == ENC_INT16
    {
      encoding, length, contents := ENC_INT16, 0, new byte[0];
    }

    /** `_intsetGet`. */
    function Get(pos: nat): (v: Int64)
      requires Valid() && pos < length
      reads this, contents
      ensures v == Values()[pos]
    {
      GetEncoded(contents[..], pos, encoding)
    }

    /** `intsetSearch`. */
    method Search(value: Int64) returns (found: bool, pos: nat)
      requires Valid()
      ensures Position(Values(), value, pos)
      ensures found <==> value in Values()
      ensures found ==> pos < length && Values()[pos] == value
    {
      ghost var e := Values();
      assert Sorted(e);
      hide GetEncoded, Elements, Sorted, Between, Position;
      if length == 0 {
        NothingThere(e, value, 0);
        return false, 0;
      }
      var highest := Get(length - 1);
      EndTests(e, value);
      if value > highest { return false, length; }
      if value < Get(0) { return false, 0; }
      var min, max, mid, cur := 0, length - 1, -1, -1;
      while max >= min
        invariant 0 <= min <= max + 1 <= length && Between(e, value, min, max)
        invariant mid >= 0 || (min == 0 && max == length - 1)
        invariant mid >= 0 ==> cur != value
      {
        mid := (min + max) / 2;
        cur := Get(mid);
        Halved(e, value, min, max, mid);
        if value > cur {
          min := mid + 1;
        } else if value < cur {
          max := mid - 1;
        } else {
          break;
        }
      }
      if value == cur { return true, mid; }
      NothingThere(e, value, min);
      return false, min;
    }

    /** `intsetUpgradeAndAdd`: the value is outside the range of all others. */
    method UpgradeAndAdd(value: Int64)
      requires Valid() && ValueEncoding(value) > encoding
      modifies this
      ensures Valid() && fresh(contents) && length == old(length) + 1 && encoding == ValueEncoding(value)
      ensures Members(Values()) == Members(old(Values())) + {value}
      ensures Values() == if value < 0 then [value] + old(Values()) else old(Values()) + [value]
    {
      OutOfRange(contents[..], length, value, encoding);
      hide GetEncoded, Fits, Sorted, Members, Elements, At;
      var c := UpgradedAndAdded(contents, length, encoding, value);
      encoding, length, contents := ValueEncoding(value), length + 1, c;
    }

    /** `intsetAdd`. */
    method Add(value: Int64) returns (success: bool)
      requires Valid() && At(length + 1, ENC_INT64) < MAX_BYTES
      modifies this
      ensures Valid() && (contents == old(contents) || fresh(contents))
      ensures success <==> value !in Members(old(Values()))
      ensures Members(Values()) == Members(old(Values())) + {value}
      ensures length == old(length) + (if success then 1 else 0)
      ensures encoding == if old(encoding) < ValueEncoding(value) then ValueEncoding(value) else old(encoding)
    {
      ghost var e := Values();
      MembersAre(e, value);
      hide GetEncoded, Sorted, Members, Elements, Position, At;
      if ValueEncoding(value) > encoding {
        FitsAll(contents[..], length, value, encoding);
        UpgradeAndAdd(value);
        return true;
      }
      success := AddFitting(value);
    }

    /** The other branch of `intsetAdd`, for a value that fits the encoding. */
    method AddFitting(value: Int64) returns (success: bool)
      requires Valid() && ValueEncoding(value) <= encoding
      modifies this
      ensures Valid() && (contents == old(contents) || fresh(contents)) && encoding == old(encoding)
      ensures success <==> value !in Members(old(Values()))
      ensures Members(Values()) == Members(old(Values())) + {value}
      ensures length == old(length) + (if success then 1 else 0)
    {
      ghost var e := Values();
      MembersAre(e, value);
      hide GetEncoded, Sorted, Members, Elements, Position, At;
      var found, pos := Search(value);
      if found { return false; }
      InsertKeepsOrder(e, value, pos);
      var c := Inserted(contents, length, encoding, pos, value);
      contents, length := c, length + 1;
      success := true;
    }

    /** `intsetRemove`. */
    method Remove(value: Int64) returns (success: bool)
      requires Valid()
      modifies this, contents
      ensures Valid() && (contents == old(contents) || fresh(contents))
      ensures success <==> value in Members(old(Values()))
      ensures Members(Values()) == Members(old(Values())) - {value}
      ensures length == old(length) - (if success then 1 else 0) && encoding == old(encoding)
    {
      ghost var e := Values();
      MembersAre(e, value);
      hide GetEncoded, Sorted, Members, Elements, Position, At;
      if ValueEncoding(value) > encoding {
        FitsAll(contents[..], length, value, encoding);
        return false;
      }
      var found, pos := Search(value);
      if !found { return false; }
      RemoveAt(pos);
      success := true;
    }

    /** The element at `pos` is taken out. */
    method RemoveAt(pos: nat)
      requires Valid() && pos < length
      modifies this, contents
      ensures Valid() && fresh(contents) && length == old(length) - 1 && encoding == old(encoding)
      ensures Members(Values()) == Members(old(Values())) - {old(Values())[pos]}
    {
      RemoveKeepsOrder(Values(), pos);
      hide GetEncoded, Sorted, Members, Elements, Position, At;
      var c := Removed(contents, length, encoding, pos);
      contents, length := c, length - 1;
    }

    /** `intsetFind`. */
    method Find(value: Int64) returns (found: bool)
      requires Valid()
      ensures found <==> value in Members(Values())
    {
      MembersAre(Values(), value);
      if ValueEncoding(value) > encoding {
        FitsAll(contents[..], length, value, encoding);
        return false;
      }
      var pos;
      found, pos := Search(value);
    }
  }

  lemma MembersAre(e: seq<Int64>, value: Int64)
    ensures value in e <==> value in Members(e)
    ensures value in e ==> Members(e) + {value} == Members(e)
    ensures value !in e ==> Members(e) - {value} == Members(e)
  {
  }

  /** A value that needs a wider encoding is not there. */
  lemma FitsAll(c: bytes, length: nat, value: Int64, enc: nat)
    requires IsEncoding(enc) && ValueEncoding(value) > enc && At(length, enc) <= |c|
    ensures value !in Elements(c, length, enc)
  {
    forall i | 0 <= i < length
      ensures GetEncoded(c, i, enc) != value
    {
    }
  }

  /** It belongs before all others if it is negative, and after them if not. */
  lemma OutOfRange(c: bytes, length: nat, value: Int64, enc: nat)
    requires IsEncoding(enc) && ValueEncoding(value) > enc && At(length, enc) <= |c| && Sorted(Elements(c, length, enc))
    ensures var e := Elements(c, length, enc);
      var r := if value < 0 then [value] + e else e + [value];
      Sorted(r) && Members(r) == Members(e) + {value}
  {
    var e := Elements(c, length, enc);
    Widths();
    FitsAll(c, length, value, enc);
    MembersAre(e, value);
    var pos := if value < 0 then 0 else |e|;
    forall i | 0 <= i < |e|
      ensures if value < 0 then value < e[i] else e[i] < value
    {
      assert Fits(GetEncoded(c, i, enc), enc);
    }
    hide Elements;
    assert Position(e, value, pos);
    InsertKeepsOrder(e, value, pos);
    assert e[..pos] + [value] + e[pos..] == if value < 0 then [value] + e else e + [value];
  }

  lemma StartWidening(c: bytes, e: seq<Int64>, enc: nat, newenc: nat, prepend: nat)
    requires IsEncoding(enc) && IsEncoding(newenc) && enc < newenc && prepend <= 1
    requires At(|e|, enc) <= |c| && At(|e| + 1, newenc) <= |c| && Elements(c, |e|, enc) == e
    ensures Widening(c, e, |e|, enc, newenc, prepend)
  {
  }

  // ---- whole runs

  datatype Op = AddOp(v: Int64) | RemoveOp(v: Int64) | FindOp(v: Int64)

  ghost function SetNext(s: set<Int64>, op: Op): set<Int64> {
    match op
    case AddOp(v) => s + {v}
    case RemoveOp(v) => s - {v}
    case FindOp(_) => s
  }

  ghost function WidestNext(widest: nat, op: Op): nat {
    if op.AddOp? && ValueEncoding(op.v) > widest then ValueEncoding(op.v) else widest
  }

  /** What the operations do to a mathematical set. */
  ghost function SetAfter(s: set<Int64>, ops: seq<Op>): set<Int64> {
    if ops == [] then s else SetNext(SetAfter(s, ops[..|ops| - 1]), ops[|ops| - 1])
  }

  /** The answer to operation `i`: added, removed, found. */
  ghost predicate AnswerAt(ops: seq<Op>, i: nat)
    requires i < |ops|
  {
    (ops[i].v in SetAfter({}, ops[..i])) != ops[i].AddOp?
  }

  ghost function WidestAdded(ops: seq<Op>): nat {
    if ops == [] then ENC_INT16 else WidestNext(WidestAdded(ops[..|ops| - 1]), ops[|ops| - 1])
  }

  /** One more operation. */
  lemma RunStep(ops: seq<Op>, i: nat)
    requires i < |ops|
    ensures SetAfter({}, ops[..i + 1]) == SetNext(SetAfter({}, ops[..i]), ops[i])
    ensures WidestAdded(ops[..i + 1]) == WidestNext(WidestAdded(ops[..i]), ops[i])
  {
    assert ops[..i + 1][..i] == ops[..i];
  }

  lemma {:induction false} MembersCount(e: seq<Int64>)
    requires Sorted(e)
    ensures |Members(e)| == |e|
  {
    if e == [] {
      assert Members(e) == {};
    } else {
      var front, last := e[..|e| - 1], e[|e| - 1];
      MembersCount(front);
      assert Members(e) == Members(front) + {last} by {
        forall i | 0 <= i < |front| ensures front[i] in Members(e) { assert e[i] == front[i]; }
      }
      assert last !in Members(front);
    }
  }

  /** No operation adds to a set that is too large: the array never reaches 2^31 bytes. */
  ghost predicate StaysSmall(ops: seq<Op>) {
    forall i :: 0 <= i < |ops| && ops[i].AddOp? ==> At(|SetAfter({}, ops[..i])| + 1, ENC_INT64) < MAX_BYTES
  }

  /** One operation. */
  method RunOp(intset: IntSet, op: Op) returns (answer: bool)
    requires intset.Valid() && At(intset.length, ENC_INT64) < MAX_BYTES
    requires op.AddOp? ==> At(intset.length + 1, ENC_INT64) < MAX_BYTES
    modifies intset, intset.contents
    ensures intset.Valid() && (intset.contents == old(intset.contents) || fresh(intset.contents))
    ensures At(intset.length, ENC_INT64) < MAX_BYTES
    ensures answer <==> (op.v in Members(old(intset.Values()))) != op.AddOp?
    ensures Members(intset.Values()) == SetNext(Members(old(intset.Values())), op)
    ensures intset.encoding == WidestNext(old(intset.encoding), op)
  {
    hide Members, Elements, Sorted;
    match op {
      case AddOp(v) => answer := intset.Add(v);
      case RemoveOp(v) => answer := intset.Remove(v);
      case FindOp(v) => answer := intset.Find(v);
    }
  }

  /** After `i` operations the array holds the mathematical set, and the answers were its answers. */
  ghost predicate Upto(ops: seq<Op>, i: nat, e: seq<Int64>, encoding: nat, answers: seq<bool>) {
    && i <= |ops| && Sorted(e) && At(|e|, ENC_INT64) < MAX_BYTES
    && Members(e) == SetAfter({}, ops[..i]) && encoding == WidestAdded(ops[..i])
    && |answers| == i && forall j :: 0 <= j < i ==> answers[j] == AnswerAt(ops, j)
  }

  lemma UptoBegins(ops: seq<Op>)
    ensures Upto(ops, 0, [], ENC_INT16, [])
  {
    assert ops[..0] == [];
    NewSet([]);
  }

  lemma UptoNext(ops: seq<Op>, i: nat, e: seq<Int64>, encoding: nat, answers: seq<bool>, e': seq<Int64>, answer: bool)
    requires Upto(ops, i, e, encoding, answers) && i < |ops| && Sorted(e') && At(|e'|, ENC_INT64) < MAX_BYTES
    requires answer <==> (ops[i].v in Members(e)) != ops[i].AddOp?
    requires Members(e') == SetNext(Members(e), ops[i])
    ensures Upto(ops, i + 1, e', WidestNext(encoding, ops[i]), answers + [answer])
  {
    RunStep(ops, i);
    hide Members, Sorted, SetAfter, SetNext, WidestAdded, WidestNext, At;
  }

  lemma UptoEnds(ops: seq<Op>, e: seq<Int64>, encoding: nat, answers: seq<bool>)
    requires Upto(ops, |ops|, e, encoding, answers)
    ensures |e| == |SetAfter({}, ops)| && At(|e|, ENC_INT64) < MAX_BYTES
    ensures Members(e) == SetAfter({}, ops) && encoding == WidestAdded(ops)
    ensures |answers| == |ops| && forall i :: 0 <= i < |ops| ==> answers[i] == AnswerAt(ops, i)
  {
    assert ops[..|ops|] == ops;
    MembersCount(e);
  }

  lemma UptoRoom(ops: seq<Op>, i: nat, e: seq<Int64>, encoding: nat, answers: seq<bool>)
    requires Upto(ops, i, e, encoding, answers) && i < |ops| && StaysSmall(ops)
    ensures At(|e|, ENC_INT64) < MAX_BYTES && (ops[i].AddOp? ==> At(|e| + 1, ENC_INT64) < MAX_BYTES)
  {
    RoomFor(ops, i, e);
    hide Members, Sorted, SetAfter, StaysSmall;
  }

  /** Any run on a new set gives the answers of a mathematical set; the encoding is that of the widest
      value ever added. */
  method RunAll(ops: seq<Op>) returns (intset: IntSet, answers: seq<bool>)
    requires StaysSmall(ops)
    ensures fresh(intset) && fresh(intset.contents) && intset.Valid()
    ensures intset.length == |SetAfter({}, ops)| && At(intset.length, ENC_INT64) < MAX_BYTES
    ensures Members(intset.Values()) == SetAfter({}, ops) && intset.encoding == WidestAdded(ops)
    ensures |answers| == |ops| && forall i :: 0 <= i < |ops| ==> answers[i] == AnswerAt(ops, i)
  {
    hide Members, Elements, Sorted, SetAfter, WidestAdded, StaysSmall, At, SetNext, WidestNext, Upto;
    intset := new IntSet();
    answers := [];
    UptoBegins(ops);
    var i := 0;
    while i < |ops|
      invariant i <= |ops| && fresh(intset) && fresh(intset.contents) && intset.Valid()
      invariant Upto(ops, i, intset.Values(), intset.encoding, answers)
    {
      ghost var e, encoding := intset.Values(), intset.encoding;
      UptoRoom(ops, i, e, encoding, answers);
      var answer := RunOp(intset, ops[i]);
      UptoNext(ops, i, e, encoding, answers, intset.Values(), answer);
      answers := answers + [answer];
      i := i + 1;
    }
    UptoEnds(ops, intset.Values(), intset.encoding, answers);
  }

  /** The element count of the array before operation `i`, and that there is room for one more. */
  lemma RoomFor(ops: seq<Op>, i: nat, e: seq<Int64>)
    requires i < |ops| && StaysSmall(ops) && Sorted(e) && Members(e) == SetAfter({}, ops[..i])
    ensures ops[i].AddOp? ==> At(|e| + 1, ENC_INT64) < MAX_BYTES
  {
    MembersCount(e);
    hide SetAfter, Members, Sorted;
  }


  lemma NewSet(e: seq<Int64>)
    requires e == []
    ensures Members(e) == SetAfter({}, []) && WidestAdded([]) == ENC_INT16
  {
  }
}
