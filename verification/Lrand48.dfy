/** rand.c: the 48 bit linear congruential generator of the scripting engine, in 16 bit limbs. Products and
    sums are those of 32 bit words; LOW keeps 16 bits. */
module Lrand48 {

  const W := 0x1_0000               // 2^N
  const WORD := 0x1_0000_0000
  const X0 := 0x330E
  const X1 := 0xABCD
  const X2 := 0x1234
  const A0 := 0xE66D
  const A1 := 0xDEEC
  const A2 := 0x5
  const C := 0xB

  type Limb = x: int | 0 <= x < 0x1_0000

  /** A word as an `int32_t`. */
  function Int32(x: int): int {
    if x % WORD >= WORD / 2 then x % WORD - WORD else x % WORD
  }

  function Low(x: int): Limb {
    x % WORD % W
  }

  /** LOW of an arithmetic shift. */
  function High(x: int): Limb {
    Low(x / W)
  }

  function Carry(x: Limb, y: Limb): (c: nat)
    ensures c <= 1
  {
    if x + y > W - 1 then 1 else 0
  }

  // ---- what POSIX asks for

  /** The 48 bit state that three limbs hold. */
  function State(x0: Limb, x1: Limb, x2: Limb): nat {
    x0 + W * x1 + W * W * x2
  }

  /** X' = (a X + c) mod 2^48 with the drand48 constants. */
  function Next(x: nat): nat {
    (0x5_DEEC_E66D * x + 0xB) % 0x1_0000_0000_0000
  }

  function After(x: nat, n: nat): nat {
    if n == 0 then x else Next(After(x, n - 1))
  }

  // ---- limbs

  /** The two limbs that MUL takes from a product are its digits, in spite of the signed word between. */
  lemma ProductLimbs(l: nat)
    requires l < WORD
    ensures Low(Int32(l)) == l % W && High(Int32(l)) == l / W
  {
    if l >= WORD / 2 {
      assert Int32(l) == l - W * W;
      assert Int32(l) / W == l / W - W;
    }
  }

  lemma LowIsMod(x: nat)
    ensures Low(x) == x % W
  {
  }

  /** A sum of two limbs is its low limb and its carry. */
  lemma CarryIs(x: Limb, y: Limb)
    ensures x + y == Low(x + y) + W * Carry(x, y)
  {
  }

  /** The value behind the carries: the three products are p, q and r, the last one a limb higher. */
  lemma CarryChain(p0: Limb, p1: Limb, q0: Limb, q1: nat, r0: Limb, r1: nat)
    ensures var s0, c0 := Low(p0 + C), Carry(p0, C);
      var s1, c1 := Low(p1 + c0), Carry(p1, c0);
      var s2, c2 := Low(s1 + q0), Carry(s1, q0);
      var s3, c3 := Low(s2 + r0), Carry(s2, r0);
      (p0 + W * p1) + C + W * ((q0 + W * q1) + (r0 + W * r1)) == s0 + W * s3 + W * W * (c1 + c2 + c3 + q1 + r1)
  {
    hide Low, Carry;
    var s0, c0 := Low(p0 + C), Carry(p0, C);
    var s1, c1 := Low(p1 + c0), Carry(p1, c0);
    var s2, c2 := Low(s1 + q0), Carry(s1, q0);
    CarryIs(p0, C);
    CarryIs(p1, c0);
    CarryIs(s1, q0);
    CarryIs(s2, r0);
  }

  /** Low limbs below a multiple of 2^32: the number modulo 2^48. */
  lemma Modulo(lo: Limb, mid: Limb, top: nat)
    ensures (lo + W * mid + W * W * top) % 0x1_0000_0000_0000 == lo + W * mid + W * W * (top % W)
  {
    var k := top / W;
    assert top == W * k + top % W;
    assert lo + W * mid + W * W * top == (lo + W * mid + W * W * (top % W)) + 0x1_0000_0000_0000 * k;
  }

  /** The partial products of one step. */
  lemma NextOfLimbs(x0: Limb, x1: Limb, x2: Limb)
    ensures var p, q, r, t := A0 * x0, A0 * x1, A1 * x0, A0 * x2 + A1 * x1 + A2 * x0;
      Next(State(x0, x1, x2)) == (p + C + W * (q + r) + W * W * t) % 0x1_0000_0000_0000
  {
    var p, q, r, t := A0 * x0, A0 * x1, A1 * x0, A0 * x2 + A1 * x1 + A2 * x0;
    var above := A1 * x2 + A2 * x1 + W * (A2 * x2);
    assert 0x5_DEEC_E66D * State(x0, x1, x2) + 0xB
        == (p + C + W * (q + r) + W * W * t) + 0x1_0000_0000_0000 * above;
    ModuloMultiple(p + C + W * (q + r) + W * W * t, above);
    hide State;
  }

  lemma ModuloMultiple(n: nat, k: nat)
    ensures (n + 0x1_0000_0000_0000 * k) % 0x1_0000_0000_0000 == n % 0x1_0000_0000_0000
  {
  }

  /** Wrapping the products to words first does not matter. */
  lemma WordPart(x: nat)
    ensures x == x % WORD + WORD * (x / WORD) && 0 <= x % WORD < WORD
  {
  }

  /** Whole words do not touch the low limb. */
  lemma AddWords(x: nat, m: nat)
    ensures (x + WORD * m) % W == x % W
  {
    var q, r := x / W, x % W;
    assert x == W * q + r;
    assert x + WORD * m == W * (q + W * m) + r;
  }

  lemma LowOfSum(s: nat, a: nat, b: nat, c: nat)
    ensures Low((s + a % WORD + b % WORD + c % WORD) % WORD) == (s + a + b + c) % W
  {
    var x := s + a % WORD + b % WORD + c % WORD;
    WordPart(a);
    WordPart(b);
    WordPart(c);
    AddWords(x, a / WORD + b / WORD + c / WORD);
    WordPart(x);
    AddWords(x % WORD, x / WORD);
  }

  /** The limbs one step leaves, from the limbs of the products of the multiplier's limbs with those of the
      state, and the products of which only the low limb counts. */
  function StepLimbs(p0: Limb, p1: Limb, q0: Limb, q1: Limb, r0: Limb, r1: Limb, t0: nat, t1: nat, t2: nat)
      : (Limb, Limb, Limb) {
    var (s0, c0) := (Low(p0 + C), Carry(p0, C));
    var (s1, c1) := (Low(p1 + c0), Carry(p1, c0));
    var (s2, c2) := (Low(s1 + q0), Carry(s1, q0));
    var sum := c2 + c1 + Carry(s2, r0) + q1 + r1 + t0 % WORD + t1 % WORD + t2 % WORD;
    (Low(s0), Low(s2 + r0), Low(sum % WORD))
  }

  /** From the carries to the state. */
  lemma Combine(n: nat, t: nat, s0: Limb, s3: Limb, above: nat)
    requires n == s0 + W * s3 + W * W * above
    ensures (n + W * W * t) % 0x1_0000_0000_0000 == State(s0, s3, (above + t) % W)
  {
    Modulo(s0, s3, above + t);
    assert n + W * W * t == s0 + W * s3 + W * W * (above + t);
  }

  lemma StepAdds(p0: Limb, p1: Limb, q0: Limb, q1: Limb, r0: Limb, r1: Limb, t0: nat, t1: nat, t2: nat)
    ensures var y := StepLimbs(p0, p1, q0, q1, r0, r1, t0, t1, t2);
      var n: nat := p0 + W * p1 + C + W * (q0 + W * q1 + r0 + W * r1);
      State(y.0, y.1, y.2) == (n + W * W * (t0 + t1 + t2)) % 0x1_0000_0000_0000
  {
    hide Low, Carry, State;
    var n: nat := p0 + W * p1 + C + W * (q0 + W * q1 + r0 + W * r1);
    var s0, c0 := Low(p0 + C), Carry(p0, C);
    var s1, c1 := Low(p1 + c0), Carry(p1, c0);
    var s2, c2 := Low(s1 + q0), Carry(s1, q0);
    var above: nat := c2 + c1 + Carry(s2, r0) + q1 + r1;
    CarryChain(p0, p1, q0, q1, r0, r1);
    Combine(n, t0 + t1 + t2, s0, Low(s2 + r0), above);
    LowOfSum(above, t0, t1, t2);
    LowIsMod(s0);
  }

  lemma Digits(x: nat)
    requires x < W * W
    ensures x == x % W + W * (x / W) && x / W < W
  {
  }

  lemma ProductsFit(x0: Limb, x1: Limb)
    ensures A0 * x0 < W * W && A0 * x1 < W * W && A1 * x0 < W * W
  {
  }

  /** One step on the limbs is one step of the generator. */
  lemma LimbsAreNext(x0: Limb, x1: Limb, x2: Limb)
    ensures A0 * x0 / W < W && A0 * x1 / W < W && A1 * x0 / W < W
    ensures var y := StepLimbs(A0 * x0 % W, A0 * x0 / W, A0 * x1 % W, A0 * x1 / W, A1 * x0 % W, A1 * x0 / W,
                               A0 * x2, A1 * x1, A2 * x0);
      State(y.0, y.1, y.2) == Next(State(x0, x1, x2))
  {
    hide StepLimbs, State, Next;
    ProductsFit(x0, x1);
    Digits(A0 * x0);
    Digits(A0 * x1);
    Digits(A1 * x0);
    StepAdds(A0 * x0 % W, A0 * x0 / W, A0 * x1 % W, A0 * x1 / W, A1 * x0 % W, A1 * x0 / W,
             A0 * x2, A1 * x1, A2 * x0);
    NextOfLimbs(x0, x1, x2);
  }

  class Generator {
    var x0: Limb
    var x1: Limb
    var x2: Limb

    ghost function Value(): nat
      reads this
    {
      State(x0, x1, x2)
    }

    constructor ()
      ensures Value() == 0x1234_ABCD_330E
    {
      x0, x1, x2 := X0, X1, X2;
    }

    /** `redisSrand48`. */
    method Srand48(seedval: int)
      requires -0x8000_0000 <= seedval < 0x8000_0000
      modifies this
      ensures Value() == (seedval % WORD) * W + 0x330E
    {
      x0, x1, x2 := X0, Low(seedval), High(seedval);
      SeedLimbs(seedval);
    }

    /** `next`. */
    method NextState()
      modifies this
      ensures Value() == Next(old(Value()))
    {
      LimbsAreNext(x0, x1, x2);
      hide Low, Carry, Next, State;
      var p0, p1 := Mul(A0, x0);
      var carry0 := Carry(p0, C);
      p0 := Low(p0 + C);
      var carry1 := Carry(p1, carry0);
      p1 := Low(p1 + carry0);
      var q0, q1 := Mul(A0, x1);
      carry0 := Carry(p1, q0);
      p1 := Low(p1 + q0);
      var r0, r1 := Mul(A1, x0);
      x2 := Low((carry0 + carry1 + Carry(p1, r0) + q1 + r1 + A0 * x2 % WORD + A1 * x1 % WORD + A2 * x0 % WORD) % WORD);
      x1 := Low(p1 + r0);
      x0 := Low(p0);
    }

    /** MUL: the low and the high limb of a product. */
    static method Mul(x: Limb, y: Limb) returns (lo: Limb, hi: Limb)
      ensures lo == x * y % W && hi == x * y / W
    {
      var l := Int32(x * y);
      ProductBound(x, y);
      ProductLimbs(x * y);
      lo, hi := Low(l), High(l);
    }

    /** `redisLrand48`: the top 31 bits of the next state. */
    method Lrand48() returns (r: int)
      modifies this
      ensures Value() == Next(old(Value())) && r == Value() / 0x2_0000 && 0 <= r < 0x8000_0000
    {
      NextState();
      TopBits(x0, x1, x2);
      assert 0 <= x2 * 0x8000 + x1 / 2 < WORD / 2;
      hide State, Next;
      r := Int32((x2 * 0x8000 + x1 / 2) % WORD);
    }
  }

  lemma {:induction false} ProductBound(x: nat, y: nat)
    requires x < W && y < W
    ensures 0 <= x * y <= (W - 1) * y < WORD
  {
    if y > 0 {
      ProductBound(x, y - 1);
      assert x * y == x * (y - 1) + x;
    }
  }

  lemma SeedLimbs(seedval: int)
    requires -0x8000_0000 <= seedval < 0x8000_0000
    ensures Low(seedval) + W * High(seedval) == seedval % WORD
  {
    var q, r := seedval / W, seedval % W;
    assert seedval == W * q + r;
    var q', r' := q / W, q % W;
    assert q == W * q' + r';
    assert seedval == WORD * q' + (W * r' + r);
    assert seedval % WORD == W * r' + r;
    assert Low(seedval) == r && Low(q) == r';
  }

  lemma TopBits(x0: Limb, x1: Limb, x2: Limb)
    ensures x2 * 0x8000 + x1 / 2 == State(x0, x1, x2) / 0x2_0000 < 0x8000_0000
  {
  }

  /** The numbers drawn after seeding are those of the sequence X, X', X'', ... by its top 31 bits. */
  method Draws(seedval: int, n: nat) returns (numbers: seq<int>)
    requires -0x8000_0000 <= seedval < 0x8000_0000
    ensures |numbers| == n
    ensures forall i :: 0 <= i < n ==> numbers[i] == After(seedval % WORD * W + 0x330E, i + 1) / 0x2_0000
  {
    hide Next;
    var g := new Generator();
    g.Srand48(seedval);
    numbers := [];
    ghost var x := g.Value();
    while |numbers| < n
      invariant |numbers| <= n && g.Value() == After(x, |numbers|)
      invariant forall i :: 0 <= i < |numbers| ==> numbers[i] == After(x, i + 1) / 0x2_0000
    {
      var r := g.Lrand48();
      numbers := numbers + [r];
    }
  }
}
