/** Bytes, big-endian numbers and decimal digit text, shared by every codec of the model. */
module Bytes {
  type byte = x: int | 0 <= x < 256

  const TWO63: int := 0x8000_0000_0000_0000
  const TWO64: int := 0x1_0000_0000_0000_0000

  predicate IsInt64(n: int) {
    -TWO63 <= n < TWO63
  }

  predicate IsUint64(n: int) {
    0 <= n < TWO64
  }

  // ---- big-endian ----------------------------------------------------------------------

  /** The value of a big-endian byte string. */
  function FromBE(s: seq<byte>): nat {
    if s == [] then 0 else FromBE(s[..|s| - 1]) * 256 + s[|s| - 1]
  }

  /** The low `size` bytes of `n`, most significant first. */
  function ToBE(n: nat, size: nat): (s: seq<byte>)
    ensures |s| == size
  {
    if size == 0 then [] else ToBE(n / 256, size - 1) + [n % 256]
  }

  function Pow256(k: nat): (p: nat)
    ensures p > 0
  {
    if k == 0 then 1 else 256 * Pow256(k - 1)
  }

  lemma FieldWidths()
    ensures Pow256(1) == 0x100 && Pow256(2) == 0x1_0000 && Pow256(4) == 0x1_0000_0000 && Pow256(8) == TWO64
  {
    assert Pow256(4) == 256 * (256 * Pow256(2));
    assert Pow256(6) == 256 * (256 * Pow256(4));
    assert Pow256(8) == 256 * (256 * Pow256(6));
  }

  /** The first byte of a field weighs most. */
  lemma {:induction false} FromBEFirst(s: seq<byte>)
    requires s != []
    ensures FromBE(s) == s[0] * Pow256(|s| - 1) + FromBE(s[1..])
  {
    if |s| == 1 {
      assert s[..0] == [] && s[1..] == [];
    } else {
      var init := s[..|s| - 1];
      FromBEFirst(init);
      assert init[1..] == s[1..][..|s| - 2];
      assert Pow256(|s| - 1) == 256 * Pow256(|s| - 2);
      ScaleUp(s[0], Pow256(|s| - 2));
    }
  }

  lemma ScaleUp(a: int, b: int)
    ensures a * b * 256 == a * (256 * b)
  {
  }

  /** A fixed-width big-endian field keeps exactly the low bytes of a number. */
  lemma {:induction false} FromToBE(n: nat, size: nat)
    requires n < Pow256(size)
    ensures FromBE(ToBE(n, size)) == n
  {
    if size > 0 {
      FromToBE(n / 256, size - 1);
      assert ToBE(n, size)[..size - 1] == ToBE(n / 256, size - 1);
    }
  }

  lemma {:induction false} FromBEBound(s: seq<byte>)
    ensures FromBE(s) < Pow256(|s|)
  {
    if s != [] {
      FromBEBound(s[..|s| - 1]);
    }
  }

  /** The shortest big-endian form of `n`: no leading zero byte, empty for zero. */
  function MinBE(n: nat): (s: seq<byte>)
    ensures s != [] ==> s[0] != 0
    ensures n != 0 ==> s != []
  {
    if n == 0 then [] else MinBE(n / 256) + [n % 256]
  }

  lemma {:induction false} FromMinBE(n: nat)
    ensures FromBE(MinBE(n)) == n
  {
    if n != 0 {
      FromMinBE(n / 256);
      assert MinBE(n)[..|MinBE(n)| - 1] == MinBE(n / 256);
    }
  }

  // ---- ASCII ---------------------------------------------------------------------------

  /** A byte that is one of some ASCII characters. */
  predicate OneOf(c: byte, chars: string) {
    c as char in chars
  }

  predicate Spells(s: seq<byte>, word: string) {
    |s| == |word| && forall i :: 0 <= i < |s| ==> s[i] as char == word[i]
  }

  // ---- powers of ten -------------------------------------------------------------------

  function Pow10(k: nat): (p: nat)
    ensures p > 0
  {
    if k == 0 then 1 else 10 * Pow10(k - 1)
  }

  lemma {:induction false} Pow10Add(a: nat, b: nat)
    ensures Pow10(a + b) == Pow10(a) * Pow10(b)
  {
    if a > 0 {
      Pow10Add(a - 1, b);
      MulTen(Pow10(b), Pow10(a - 1));
    }
  }

  // ---- decimal digits ------------------------------------------------------------------

  const MINUS: byte := 0x2d
  const ZERO: byte := 0x30

  predicate IsDigit(c: byte) {
    0x30 <= c <= 0x39
  }

  function Digit(c: byte): int {
    c - 0x30
  }

  ghost predicate AllDigits(s: seq<byte>) {
    forall i :: 0 <= i < |s| ==> IsDigit(s[i])
  }

  /** The number a run of decimal digits writes; the empty run is zero. */
  function DigitsVal(s: seq<byte>): (n: nat)
    requires AllDigits(s)
  {
    if s == [] then 0 else DigitsVal(s[..|s| - 1]) * 10 + Digit(s[|s| - 1])
  }

  /** The decimal digits of `n`, without a leading zero unless `n` is zero. */
  function NatText(n: nat): (s: seq<byte>)
    ensures s != [] && AllDigits(s)
    ensures n > 0 ==> s[0] != ZERO
  {
    if n < 10 then [0x30 + n] else NatText(n / 10) + [0x30 + n % 10]
  }

  function IntText(n: int): (s: seq<byte>)
    ensures IsIntText(s)
  {
    if n < 0 then [MINUS] + NatText(-n) else NatText(n)
  }

  /** An optional '-' and at least one digit. */
  ghost predicate IsIntText(s: seq<byte>) {
    && s != []
    && AllDigits(Unsigned(s))
    && Unsigned(s) != []
  }

  function Unsigned(s: seq<byte>): seq<byte> {
    if s != [] && s[0] == MINUS then s[1..] else s
  }

  function IntVal(s: seq<byte>): int
    requires IsIntText(s)
  {
    if s[0] == MINUS then 0 - DigitsVal(s[1..]) else DigitsVal(s)
  }

  lemma {:induction false} NatTextVal(n: nat)
    ensures DigitsVal(NatText(n)) == n
  {
    var s := NatText(n);
    if n < 10 {
      assert s[..0] == [];
    } else {
      NatTextVal(n / 10);
      assert s[..|s| - 1] == NatText(n / 10);
    }
  }

  /** Printing an integer and reading it back gives the integer. */
  lemma IntTextVal(n: int)
    ensures IntVal(IntText(n)) == n
  {
    if n < 0 {
      NatTextVal(-n);
      assert IntText(n)[1..] == NatText(-n);
    } else {
      NatTextVal(n);
    }
  }

  lemma MulTen(a: int, b: int)
    ensures a * (10 * b) == a * b * 10
  {
  }

  lemma {:induction false} DigitsValConcat(a: seq<byte>, b: seq<byte>)
    requires AllDigits(a) && AllDigits(b)
    ensures AllDigits(a + b)
    ensures DigitsVal(a + b) == DigitsVal(a) * Pow10(|b|) + DigitsVal(b)
  {
    if b == [] {
      assert a + b == a;
    } else {
      var b' := b[..|b| - 1];
      DigitsValConcat(a, b');
      assert (a + b)[..|a + b| - 1] == a + b';
      MulTen(DigitsVal(a), Pow10(|b'|));
    }
  }

  lemma {:induction false} DigitsValBound(s: seq<byte>)
    requires AllDigits(s)
    ensures DigitsVal(s) < Pow10(|s|)
  {
    if s != [] {
      DigitsValBound(s[..|s| - 1]);
    }
  }

  lemma {:induction false} DigitsValLeadingZero(s: seq<byte>)
    requires s != [] && AllDigits(s) && s[0] == ZERO
    ensures DigitsVal(s) == DigitsVal(s[1..])
  {
    if |s| > 1 {
      DigitsValLeadingZero(s[..|s| - 1]);
      assert s[1..][..|s| - 2] == s[..|s| - 1][1..];
    } else {
      assert s[..0] == [] && s[1..] == [];
    }
  }

  /** Digits whose first one is not zero write a number of exactly that many digits. */
  lemma {:induction false} DigitsValLower(s: seq<byte>)
    requires s != [] && AllDigits(s) && s[0] != ZERO
    ensures DigitsVal(s) >= Pow10(|s| - 1)
  {
    if |s| > 1 {
      DigitsValLower(s[..|s| - 1]);
    } else {
      assert s[..0] == [];
    }
  }
}
