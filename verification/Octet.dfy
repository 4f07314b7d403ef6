/** Integers below 256 as words of eight bits. */
module Octet {

  lemma Doubled(o: bv8, bit: bv8)
    requires o as int < 128 && bit < 2
    ensures ((o << 1) | bit) as int == 2 * (o as int) + bit as int
  {
  }

  /** The bits of `x`, the highest first. */
  function ToOctet(x: nat): (o: bv8)
    requires x < 256
    ensures o as int == x
  {
    if x == 0 then 0
    else
      var o, bit: bv8 := ToOctet(x / 2), if x % 2 == 1 then 1 else 0;
      Doubled(o, bit);
      (o << 1) | bit
  }

  lemma Same(o: bv8, o': bv8)
    requires o as int == o' as int
    ensures o == o'
  {
  }

  lemma OctetOf(o: bv8)
    ensures ToOctet(o as int) == o
  {
    hide ToOctet;
    Same(ToOctet(o as int), o);
  }
}
