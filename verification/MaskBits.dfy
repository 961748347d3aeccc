/**
 The bits of the presence words: set by query/write_denormalize.go, read by query/write_temp.go. A word is
 the set of its bits that are on; a statement names one of them by a 64-bit signed number.
 */
module MaskBits {
  type Word = w: set<nat> | forall b :: b in w ==> b < 64

  function Pow2(k: nat): (p: nat)
    ensures p > 0
  {
    if k == 0 then 1 else 2 * Pow2(k - 1)
  }

  /** The word with one bit set: int64(1) << bit. */
  function Only(bit: nat): Word
    requires bit < 64
  {
    {bit}
  }

  function Or(a: Word, b: Word): Word {
    a + b
  }

  function And(a: Word, b: Word): Word {
    a * b
  }

  /** The number the low bits of a word write. */
  function Low(w: Word, n: nat): nat
    requires n <= 64
  {
    if n == 0 then 0 else Low(w, n - 1) + (if n - 1 in w then Pow2(n - 1) else 0)
  }

  /** A word as a signed number, in two's complement. */
  function Signed(w: Word): int {
    Low(w, 63) - (if 63 in w then Pow2(63) else 0)
  }

  /** maskBitLiteral: the number a statement tests with; the sign bit's cannot be written as one literal. */
  function Literal(bit: nat): int
    requires bit < 64
  {
    if bit == 63 then -9223372036854775807 - 1 else Pow2(bit)
  }

  // ---- a number names one word -----------------------------------------------------------------------------

  lemma {:induction false} LowBound(w: Word, n: nat)
    requires n <= 64
    ensures Low(w, n) < Pow2(n)
  {
    if n > 0 {
      LowBound(w, n - 1);
    }
  }

  lemma {:induction false} LowInjective(a: Word, b: Word, n: nat)
    requires n <= 64 && Low(a, n) == Low(b, n)
    ensures forall i :: 0 <= i < n ==> (i in a <==> i in b)
  {
    if n > 0 {
      LowBound(a, n - 1);
      LowBound(b, n - 1);
      LowInjective(a, b, n - 1);
    }
  }

  lemma SignedInjective(a: Word, b: Word)
    requires Signed(a) == Signed(b)
    ensures a == b
  {
    hide Low, Pow2;
    LowBound(a, 63);
    LowBound(b, 63);
    LowInjective(a, b, 63);
    forall i ensures i in a <==> i in b {
    }
  }

  lemma {:induction false} LowOnly(bit: nat, n: nat)
    requires bit < 64 && n <= 64
    ensures Low(Only(bit), n) == if bit < n then Pow2(bit) else 0
  {
    if n > 0 {
      LowOnly(bit, n - 1);
    }
  }

  lemma Pow63()
    ensures Pow2(63) == 9223372036854775808
  {
    assert Pow2(8) == 256;
    assert Pow2(16) == 256 * Pow2(8);
    assert Pow2(24) == 256 * Pow2(16);
    assert Pow2(32) == 256 * Pow2(24);
    assert Pow2(40) == 256 * Pow2(32);
    assert Pow2(48) == 256 * Pow2(40);
    assert Pow2(56) == 256 * Pow2(48);
    assert Pow2(63) == 128 * Pow2(56);
  }

  /** The literal is the one number of the word with that bit alone, the sign bit included. */
  lemma LiteralNames(bit: nat, w: Word)
    requires bit < 64
    ensures Signed(w) == Literal(bit) <==> w == Only(bit)
  {
    hide Low, Pow2;
    LowOnly(bit, 63);
    Pow63();
    if Signed(w) == Literal(bit) {
      SignedInjective(w, Only(bit));
    }
  }

  // ---- setting and testing ------------------------------------------------------------------------------------

  /** fill: records that a slot was supplied. */
  function SetBit(word: Word, bit: nat): Word
    requires bit < 64
  {
    Or(word, Only(bit))
  }

  /** maskTest: the word and the literal's word have a bit in common. */
  ghost predicate Test(word: Word, bit: nat)
    requires bit < 64
  {
    exists l: Word :: Signed(l) == Literal(bit) && And(word, l) != {}
  }

  lemma TestBit(word: Word, bit: nat)
    requires bit < 64
    ensures Test(word, bit) <==> bit in word
  {
    hide Signed, Literal;
    LiteralNames(bit, Only(bit));
    if bit in word {
      assert bit in And(word, Only(bit));
    }
    if Test(word, bit) {
      var l: Word :| Signed(l) == Literal(bit) && And(word, l) != {};
      LiteralNames(bit, l);
    }
  }

  /** A test sees exactly the bit that was set, the sign bit included. */
  lemma TestSees(word: Word, a: nat, b: nat)
    requires a < 64 && b < 64
    ensures Test(SetBit(word, a), b) <==> a == b || Test(word, b)
    ensures !Test({}, b)
  {
    hide Test;
    TestBit(SetBit(word, a), b);
    TestBit(word, b);
    TestBit({}, b);
  }
}
