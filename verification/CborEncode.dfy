/** The byte-appending CBOR writer of cborenc/encode.go. */
module CborEncode {
  import opened Bytes
  import opened CborItem

  /** The initial byte of an item with its argument in the shortest form. */
  function HeadBytes(major: nat, v: nat): (s: seq<byte>)
    requires major < 8 && IsUint64(v)
    ensures s != []
  {
    if v < 24 then [major * 32 + v]
    else if v <= 0xff then [major * 32 + 24] + ToBE(v, 1)
    else if v <= 0xffff then [major * 32 + 25] + ToBE(v, 2)
    else if v <= 0xffff_ffff then [major * 32 + 26] + ToBE(v, 4)
    else [major * 32 + 27] + ToBE(v, 8)
  }

  function AppendHead(dst: seq<byte>, major: nat, v: nat): seq<byte>
    requires major < 8 && IsUint64(v)
  {
    dst + HeadBytes(major, v)
  }

  lemma WideHeadRoundTrip(major: nat, ai: nat, size: nat, v: nat, suffix: seq<byte>)
    requires major < 8
    requires (ai, size) in {(24, 1), (25, 2), (26, 4), (27, 8)}
    requires v < Pow256(size)
    ensures ReadHead([major * 32 + ai] + ToBE(v, size) + suffix) == Head(major, ai, v, false, suffix)
  {
    var s := [major * 32 + ai] + ToBE(v, size) + suffix;
    FromToBE(v, size);
    assert s[0] / 32 == major && s[0] % 32 == ai;
    assert s[1..1 + size] == ToBE(v, size);
    assert s[1 + size..] == suffix;
  }

  lemma ShortHeadRoundTrip(major: nat, v: nat, suffix: seq<byte>)
    requires major < 8 && v < 24
    ensures ReadHead([major * 32 + v] + suffix) == Head(major, v, v, false, suffix)
  {
    var s := [major * 32 + v] + suffix;
    assert s[0] / 32 == major && s[0] % 32 == v;
    assert s[1..] == suffix;
  }

  /** Reading a head undoes writing it, whatever follows. */
  lemma HeadRoundTrip(major: nat, v: nat, suffix: seq<byte>)
    requires major < 8 && IsUint64(v)
    ensures var h := ReadHead(HeadBytes(major, v) + suffix);
            h.Head? && h.major == major && h.val == v && !h.indef && h.rest == suffix
  {
    FieldWidths();
    if v < 24 {
      ShortHeadRoundTrip(major, v, suffix);
    } else if v <= 0xff {
      WideHeadRoundTrip(major, 24, 1, v, suffix);
    } else if v <= 0xffff {
      WideHeadRoundTrip(major, 25, 2, v, suffix);
    } else if v <= 0xffff_ffff {
      WideHeadRoundTrip(major, 26, 4, v, suffix);
    } else {
      WideHeadRoundTrip(major, 27, 8, v, suffix);
    }
  }

  // ---- integers ------------------------------------------------------------------------

  /** Preferred serialization of an integer: section 4.1 of RFC 8949 for 64 bits, section 3.4.3 beyond. */
  function IntegerBytes(n: int): (s: seq<byte>)
    ensures s != []
  {
    if 0 <= n < TWO64 then HeadBytes(0, n)
    else if -TWO64 <= n < 0 then HeadBytes(1, -1 - n)
    else if n >= 0 then HeadBytes(6, 2) + BlobBytes(MinBE(n))
    else HeadBytes(6, 3) + BlobBytes(MinBE(-1 - n))
  }

  /** A byte string. A slice's length always fits 64 bits, which the remainder spells out. */
  function BlobBytes(b: seq<byte>): (s: seq<byte>)
    ensures s != []
  {
    HeadBytes(2, |b| % TWO64) + b
  }

  function TextBytes(t: seq<byte>): (s: seq<byte>)
    ensures s != []
  {
    HeadBytes(3, |t| % TWO64) + t
  }

  method TrimLeadingZeros(digits: seq<byte>) returns (r: seq<byte>)
    requires AllDigits(digits)
    ensures AllDigits(r) && |r| <= |digits|
    ensures r != [] ==> r[0] != ZERO
    ensures DigitsVal(r) == DigitsVal(digits)
  {
    r := digits;
    while r != [] && r[0] == ZERO
      invariant AllDigits(r) && |r| <= |digits|
      invariant DigitsVal(r) == DigitsVal(digits)
    {
      DigitsValLeadingZero(r);
      r := r[1..];
    }
  }

  /** The loop of AppendInteger: at most 19 digits never overflow an unsigned 64-bit accumulator. */
  method ParseUint64(digits: seq<byte>) returns (v: nat)
    requires AllDigits(digits) && |digits| <= 19
    ensures v == DigitsVal(digits) < TWO64
  {
    hide Pow10;
    v := 0;
    Pow10Mono(|digits|, 19);
    for i := 0 to |digits|
      invariant v == DigitsVal(digits[..i])
    {
      var next := digits[..i + 1];
      assert next[..i] == digits[..i];
      DigitsValBound(next);
      Pow10Mono(i + 1, 19);
      v := (v * 10 + (digits[i] - 0x30)) % TWO64;
    }
    assert digits[..|digits|] == digits;
    DigitsValBound(digits);
  }

  /** AppendInteger: decimal text to the integer's preferred serialization, in 64-bit arithmetic when that is enough. */
  method AppendInteger(dst: seq<byte>, text: seq<byte>) returns (out: seq<byte>)
    requires IsIntText(text)
    ensures out == dst + IntegerBytes(IntVal(text))
  {
    hide HeadBytes, MinBE, BlobBytes;
    var neg := text[0] == MINUS;
    var digits := TrimLeadingZeros(Unsigned(text));
    if digits == [] {
      return AppendHead(dst, 0, 0);
    }
    DigitsValLower(digits);
    if |digits| <= 19 {
      var v := ParseUint64(digits);
      return if neg then AppendHead(dst, 1, v - 1) else AppendHead(dst, 0, v);
    }
    var n := DigitsVal(digits);
    if !neg && n < TWO64 {
      return AppendHead(dst, 0, n);
    }
    if neg {
      if n - 1 < TWO64 {
        return AppendHead(dst, 1, n - 1);
      }
      return AppendHead(dst, 6, 3) + BlobBytes(MinBE(n - 1));
    }
    return AppendHead(dst, 6, 2) + BlobBytes(MinBE(n));
  }

  lemma {:induction false} MinBELength(n: nat, k: nat)
    requires n < Pow10(k)
    ensures |MinBE(n)| <= k
  {
    if n > 0 {
      MinBELength(n / 256, k - 1);
    }
  }

  lemma {:induction false} Pow10Mono(a: nat, b: nat)
    requires a <= b
    ensures Pow10(a) <= Pow10(b)
    ensures Pow10(19) == 10_000_000_000_000_000_000
    decreases b - a
  {
    assert Pow10(5) == 100000;
    assert Pow10(10) == 100000 * Pow10(5);
    assert Pow10(15) == 100000 * Pow10(10);
    assert Pow10(19) == 10000 * Pow10(15);
    if a < b {
      Pow10Mono(a, b - 1);
    }
  }
}
