/** The floats that stand for the numerics a decimal fraction cannot hold, by the fields of section 3.4 of IEEE 754. */
module NumericFloats {
  import opened Bytes
  import opened NumericCbor
  import opened CborGrammar

  /** A NaN has some fraction, the infinities none; the highest bit is the sign. */
  lemma SpecialFloats()
    ensures !Finite(8, NAN_BITS) && FractionField(8, NAN_BITS) != 0 && NAN_BITS < TWO64
    ensures !Finite(8, INF_BITS) && FractionField(8, INF_BITS) == 0 && INF_BITS < TWO63
    ensures !Finite(8, NEG_INF_BITS) && FractionField(8, NEG_INF_BITS) == 0 && TWO63 <= NEG_INF_BITS < TWO64
  {
    Pow2Is();
  }

  /** Each is read back from a response as the float it is, nine bytes whatever follows. */
  lemma SpecialRead(bits: nat, suffix: seq<byte>)
    requires bits < TWO64
    ensures var x := Real(Eight, bits); WellFormed(x) && Spell(x) + suffix == ([0xfb] + ToBE(bits, 8)) + suffix
  {
  }
}
