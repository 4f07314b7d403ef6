/** Bytes, byte strings and optional results, shared by every module. */
module Bytes {

  type byte = x: int | 0 <= x < 256

  type bytes = seq<byte>

  datatype Option<+T> = None | Some(value: T)

  /** The bytes of a text. */
  function Ascii(s: string): bytes
    requires forall i :: 0 <= i < |s| ==> s[i] as int < 256
  {
    seq(|s|, i requires 0 <= i < |s| => s[i] as int)
  }

  /** A slice of a slice is a slice of the whole. */
  lemma SliceOfSlice<T>(w: seq<T>, lo: nat, hi: nat, i: nat, j: nat)
    requires lo <= i <= j <= hi <= |w|
    ensures w[lo..hi][i - lo..j - lo] == w[i..j]
  {
    forall k | 0 <= k < j - i ensures w[lo..hi][i - lo..j - lo][k] == w[i..j][k] {
      assert w[lo..hi][i - lo + k] == w[i + k];
    }
  }

  lemma RestOfRest<T>(w: seq<T>, lo: nat, j: nat)
    requires lo + j <= |w|
    ensures w[lo..][j..] == w[lo + j..]
  {
  }

  lemma PartOfRest<T>(w: seq<T>, lo: nat, i: nat, j: nat)
    requires i <= j && lo + j <= |w|
    ensures w[lo..][i..j] == w[lo + i..lo + j]
  {
  }

  lemma ConcatAssoc<T>(a: seq<T>, b: seq<T>, c: seq<T>)
    ensures a + (b + c) == a + b + c
  {
  }
}
