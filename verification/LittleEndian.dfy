/** Integers of a fixed width in memory: little endian, two's complement. */
module LittleEndian {
  import opened Bytes

  function Pow256(n: nat): (r: nat)
    ensures r > 0
  {
    if n == 0 then 1 else 256 * Pow256(n - 1)
  }

  /** The lowest `n` bytes of `u`. */
  function Put(u: nat, n: nat): (r: bytes)
    ensures |r| == n
  {
    if n == 0 then [] else [u % 256] + Put(u / 256, n - 1)
  }

  function Unsigned(b: bytes): nat {
    if b == [] then 0 else b[0] + 256 * Unsigned(b[1..])
  }

  lemma {:induction false} UnsignedBound(b: bytes)
    ensures Unsigned(b) < Pow256(|b|)
  {
    if b != [] { UnsignedBound(b[1..]); }
  }

  lemma {:induction false} UnsignedPut(u: nat, n: nat)
    requires u < Pow256(n)
    ensures Unsigned(Put(u, n)) == u
  {
    if n > 0 {
      UnsignedPut(u / 256, n - 1);
      assert Put(u, n)[1..] == Put(u / 256, n - 1);
    }
  }

  lemma {:induction false} PutUnsigned(b: bytes)
    ensures Put(Unsigned(b), |b|) == b
  {
    if b != [] {
      PutUnsigned(b[1..]);
      assert Unsigned(b) % 256 == b[0] && Unsigned(b) / 256 == Unsigned(b[1..]);
    }
  }

  /** The two's complement value. */
  function Signed(b: bytes): int {
    if 2 * Unsigned(b) >= Pow256(|b|) then Unsigned(b) - Pow256(|b|) else Unsigned(b)
  }

  predicate Fits(v: int, n: nat) {
    0 - Pow256(n) <= 2 * v < Pow256(n)
  }

  function PutSigned(v: int, n: nat): (r: bytes)
    requires Fits(v, n)
    ensures |r| == n
  {
    Put(if v < 0 then v + Pow256(n) else v, n)
  }

  lemma SignedPut(v: int, n: nat)
    requires Fits(v, n)
    ensures Signed(PutSigned(v, n)) == v
  {
    UnsignedPut(if v < 0 then v + Pow256(n) else v, n);
  }

  lemma SignedFits(b: bytes)
    requires b != []
    ensures Fits(Signed(b), |b|)
  {
    UnsignedBound(b);
  }

  lemma Widths()
    ensures Pow256(1) == 0x100 && Pow256(2) == 0x1_0000 && Pow256(4) == 0x1_0000_0000
    ensures Pow256(8) == 0x1_0000_0000_0000_0000
  {
    assert Pow256(3) == 256 * Pow256(2);
    assert Pow256(5) == 256 * Pow256(4);
    assert Pow256(7) == 256 * Pow256(6);
  }
}
