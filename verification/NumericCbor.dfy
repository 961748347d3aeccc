/**
 A numeric as a CBOR decimal fraction and back: appendNumericCBOR of query/result_cbor.go, and the text
 query/node_cbor.go gives such a number when it is written to a column again.
 */
module NumericCbor {
  import opened Bytes
  import opened Decimal
  import opened Numeric
  import opened CborItem
  import opened CborEncode
  import opened CborDoc
  import opened CborRoundTrip

  // ---- the digits of a magnitude -----------------------------------------------------------------

  /** The group of the g'th power of 10000. */
  function AtPower(mag: Magnitude, g: int): group {
    if 0 <= mag.weight - g < |mag.groups| then mag.groups[mag.weight - g] else 0
  }

  /** The groups from power `top` down to power `g`, as one number. */
  function Sum(mag: Magnitude, top: int, g: int): nat
    requires g <= top + 1
    decreases top - g + 1
  {
    if g == top + 1 then 0 else Sum(mag, top, g + 1) * 10000 + AtPower(mag, g)
  }

  lemma {:induction false} SumAbove(mag: Magnitude, top: int, g: int)
    requires mag.weight < g <= top + 1
    ensures Sum(mag, top, g) == 0
    decreases top - g + 1
  {
    if g <= top {
      SumAbove(mag, top, g + 1);
    }
  }

  lemma {:induction false} SumWithin(mag: Magnitude, top: int, g: int)
    requires mag.weight <= top && mag.weight - |mag.groups| + 1 <= g <= mag.weight
    ensures Sum(mag, top, g) == GroupsVal(mag.groups[..mag.weight - g + 1])
    decreases top - g + 1
  {
    var n := mag.weight - g;
    assert mag.groups[..n + 1][..n] == mag.groups[..n];
    if g == mag.weight {
      SumAbove(mag, top, g + 1);
    } else {
      SumWithin(mag, top, g + 1);
    }
  }

  /** Down to a power at or below the last group, the sum is the whole value in units of that power. */
  lemma {:induction false} SumWhole(mag: Magnitude, top: int, g: int)
    requires mag.weight <= top && mag.groups != [] && g <= mag.weight - |mag.groups| + 1
    ensures Sum(mag, top, g) == GroupsVal(mag.groups) * Pow10(mag.Low() - 4 * g)
    decreases top - g + 1
  {
    var low := mag.weight - |mag.groups| + 1;
    if g == low {
      SumWithin(mag, top, g);
      assert mag.groups[..|mag.groups|] == mag.groups;
      assert Pow10(0) == 1;
    } else {
      SumWhole(mag, top, g + 1);
      var k := mag.Low() - 4 * (g + 1);
      Pow10Add(4, k);
      assert Pow10(4) == 10000;
      MulAssoc(GroupsVal(mag.groups), Pow10(k), 10000);
    }
  }

  /** A value that is a whole number of 10^0 - dscale has no group below the one dscale reaches. */
  lemma ReachesScale(mag: Magnitude, mant: nat, dscale: nat)
    requires Canonical(mag, mant, 0 - dscale) && mant > 0
    ensures mag.Low() >= -4 * ((dscale + 3) / 4)
  {
    hide SameValue, Pow10;
    var v, q := GroupsVal(mag.groups), mag.weight - |mag.groups| + 1;
    var a := (dscale + 3) / 4;
    if q < -a {
      SameShift(mant, 0 - dscale, 4 * a - dscale);
      var n := mant * Pow10(4 * a - dscale);
      SameSym(n, -4 * a, mant, 0 - dscale);
      SameTrans(v, 4 * q, mant, 0 - dscale, n, -4 * a);
      HigherUnit(v, q, n, -a);
    }
  }

  /** The digits of the groups down to the scale's last group write the mantissa followed by padding zeros. */
  lemma SumIsMantissa(mag: Magnitude, mant: nat, dscale: nat, top: int)
    requires Canonical(mag, mant, 0 - dscale) && mant > 0 && mag.weight <= top && -((dscale + 3) / 4) <= top + 1
    ensures var after := (dscale + 3) / 4; Sum(mag, top, -after) == mant * Pow10(4 * after - dscale)
  {
    hide SameValue, Pow10, Sum;
    var after := (dscale + 3) / 4;
    ReachesScale(mag, mant, dscale);
    SumWhole(mag, top, -after);
    SameIn(GroupsVal(mag.groups), mag.Low(), mant, 0 - dscale, -4 * after);
  }

  // ---- reading the wire -----------------------------------------------------------------------------

  function U16(d: seq<byte>, at: nat): nat
    requires at + 2 <= |d|
  {
    (d[at] as int) * 256 + d[at + 1]
  }

  function S16(d: seq<byte>, at: nat): int
    requires at + 2 <= |d|
  {
    if U16(d, at) < 0x8000 then U16(d, at) else U16(d, at) - 0x10000
  }

  lemma {:induction false} GroupBytesAt(gs: seq<group>, i: nat)
    requires i < |gs|
    ensures U16(GroupBytes(gs), 2 * i) == gs[i]
    decreases |gs|
  {
    if i < |gs| - 1 {
      GroupBytesAt(gs[..|gs| - 1], i);
    }
  }

  /** The fields of a numeric on the wire. */
  lemma WireFields(num: Finite)
    requires InRange(num)
    ensures var d := Wire(num);
            && |d| == 8 + 2 * |num.mag.groups|
            && U16(d, 0) == |num.mag.groups| && S16(d, 2) == num.mag.weight
            && U16(d, 4) == SignWord(num.neg) && U16(d, 6) == num.dscale
            && forall i :: 0 <= i < |num.mag.groups| ==> U16(d, 8 + 2 * i) == num.mag.groups[i]
  {
    var d, gs := Wire(num), num.mag.groups;
    forall i | 0 <= i < |gs| ensures U16(d, 8 + 2 * i) == gs[i] {
      GroupBytesAt(gs, i);
      assert d[8 + 2 * i] == GroupBytes(gs)[2 * i] && d[8 + 2 * i + 1] == GroupBytes(gs)[2 * i + 1];
    }
  }

  /** Four digits, zero padded; more of them for a number that needs more. */
  function Pad4(v: nat): seq<byte> {
    if v < 10000 then [0x30 + v / 1000, 0x30 + v / 100 % 10, 0x30 + v / 10 % 10, 0x30 + v % 10] else NatText(v)
  }

  lemma Pad4Val(v: group)
    ensures |Pad4(v)| == 4 && AllDigits(Pad4(v)) && DigitsVal(Pad4(v)) == v
  {
    hide DigitsVal;
    FourBound(Pad4(v));
    var h, t := v / 100, v / 10;
    assert h / 10 == v / 1000 && t / 10 == h;
    assert h == v / 1000 * 10 + h % 10 && t == h * 10 + t % 10 && v == t * 10 + v % 10;
  }

  // ---- the CBOR decimal --------------------------------------------------------------------------------

  const NAN_BITS: nat := 0x7ff8_0000_0000_0001
  const INF_BITS: nat := 0x7ff0_0000_0000_0000
  const NEG_INF_BITS: nat := 0xfff0_0000_0000_0000

  /** The wire bytes are those of this numeric, in range, whose value is mant * 10^-dscale. */
  ghost predicate Holds(d: seq<byte>, num: Finite, mant: nat) {
    InRange(num) && d == Wire(num) && Canonical(num.mag, mant, 0 - num.dscale) && (mant == 0 ==> !num.neg)
  }

  function Signed(neg: bool, n: nat): int {
    if neg then 0 - n else n
  }

  /**
   appendNumericCBOR: NaN and the infinities as floats, any other value as the decimal fraction of its
   mantissa and display scale. `num` and `mant` are whatever numeric the bytes are those of, if any.
   */
  method AppendNumericCbor(dst: seq<byte>, d: seq<byte>, ghost num: Finite, ghost mant: nat)
  returns (ok: bool, out: seq<byte>)
    ensures |d| < 8 ==> !ok
    ensures d == SpecialWire(0xc000) ==> ok && out == dst + ([0xfb] + ToBE(NAN_BITS, 8))
    ensures d == SpecialWire(0xd000) ==> ok && out == dst + ([0xfb] + ToBE(INF_BITS, 8))
    ensures d == SpecialWire(0xf000) ==> ok && out == dst + ([0xfb] + ToBE(NEG_INF_BITS, 8))
    ensures Holds(d, num, mant) ==> ok && out == dst + DecimalBytes(Signed(num.neg, mant), 0 - num.dscale)
  {
    hide Wire, Canonical, DecimalBytes, ToBE, InRange, HoldsGroups;
    ghost var holds := Holds(d, num, mant);
    if holds {
      WireFields(num);
      RangeBounds(num);
      WireHoldsGroups(num);
    }
    if |d| < 8 {
      return false, [];
    }
    var ndigits, weight, sign, dscale := U16(d, 0), S16(d, 2), U16(d, 4), U16(d, 6) % 0x4000;
    if sign == 0xc000 {
      return true, dst + ([0xfb] + ToBE(NAN_BITS, 8));
    } else if sign == 0xd000 {
      return true, dst + ([0xfb] + ToBE(INF_BITS, 8));
    } else if sign == 0xf000 {
      return true, dst + ([0xfb] + ToBE(NEG_INF_BITS, 8));
    }
    if |d| - 8 < ndigits * 2 {
      return false, [];
    }
    if ndigits == 0 {
      assert holds ==> mant == 0 by { if holds { EmptyIsZero(num, mant); } }
      return true, dst + DecimalBytes(0, 0 - dscale);
    }
    ok, out := AppendGroupsCbor(dst, d, ndigits, weight, sign == 0x4000, dscale, num, mant);
  }

  /** The groups of a numeric that has some, as a decimal fraction. */
  method AppendGroupsCbor(dst: seq<byte>, d: seq<byte>, ndigits: nat, weight: int, neg: bool, dscale: nat,
                          ghost num: Finite, ghost mant: nat)
    returns (ok: bool, out: seq<byte>)
    requires 8 + 2 * ndigits <= |d| && dscale < 0x4000
    ensures HoldsGroups(d, ndigits, weight, num.mag) && ndigits > 0 && weight <= 0x7fff && dscale <= MAX_DSCALE
            && Canonical(num.mag, mant, 0 - dscale) ==>
              ok && out == dst + DecimalBytes(Signed(neg, mant), 0 - dscale)
  {
    hide Canonical, DecimalBytes, Sum, DigitsVal;
    var after := (dscale + 3) / 4;
    var top := if weight > 0 then weight else 0;
    if top + 1 + after > 40000 {
      return false, [];
    }
    var full := GroupText(d, ndigits, weight, top, after, num.mag);
    var cut := 4 * after - dscale;
    var s := if cut > 0 then full[..|full| - cut] else full;
    if HoldsGroups(d, ndigits, weight, num.mag) && ndigits > 0 && Canonical(num.mag, mant, 0 - dscale) {
      CutIsMantissa(num.mag, mant, dscale, top, after, full, s);
    }
    var text := if neg then [MINUS] + s else s;
    assert Unsigned(text) == s;
    out := AppendDecimal(dst, text, 0 - dscale);
    ok := true;
  }

  lemma RangeBounds(num: Finite)
    requires InRange(num)
    ensures num.dscale <= MAX_DSCALE && num.mag.weight <= 0x7fff
  {
  }

  lemma EmptyIsZero(num: Finite, mant: nat)
    requires Canonical(num.mag, mant, 0 - num.dscale) && num.mag.groups == []
    ensures mant == 0
  {
  }

  /** The wire bytes hold the groups of this magnitude. */
  ghost predicate HoldsGroups(d: seq<byte>, ndigits: nat, weight: int, mag: Magnitude) {
    && 8 + 2 * ndigits <= |d| && ndigits == |mag.groups| && weight == mag.weight
    && forall i :: 0 <= i < ndigits ==> U16(d, 8 + 2 * i) == mag.groups[i]
  }

  /** The text of the groups from power `top` down to the one `after` powers below the point, four digits each. */
  method GroupText(d: seq<byte>, ndigits: nat, weight: int, top: nat, after: nat, ghost mag: Magnitude)
  returns (s: seq<byte>)
    requires 8 + 2 * ndigits <= |d|
    ensures AllDigits(s) && |s| >= 4 * (top + 1 + after)
    ensures HoldsGroups(d, ndigits, weight, mag) ==>
              |s| == 4 * (top + 1 + after) && DigitsVal(s) == Sum(mag, top, 0 - after)
  {
    s := [];
    var g: int := top;
    while g >= 0 - after
      invariant -1 - after <= g <= top && AllDigits(s) && |s| >= 4 * (top - g)
      invariant HoldsGroups(d, ndigits, weight, mag) ==> |s| == 4 * (top - g) && DigitsVal(s) == Sum(mag, top, g + 1)
      decreases g + after
    {
      var i := weight - g;
      var v := if 0 <= i < ndigits then U16(d, 8 + 2 * i) else 0;
      GroupTextStep(s, v, mag, top, g);
      s := s + Pad4(v);
      g := g - 1;
    }
  }

  lemma GroupTextStep(s: seq<byte>, v: nat, mag: Magnitude, top: int, g: int)
    requires AllDigits(s) && g <= top
    ensures AllDigits(s + Pad4(v)) && |Pad4(v)| >= 4
    ensures v < 10000 ==> |Pad4(v)| == 4
    ensures v == AtPower(mag, g) && DigitsVal(s) == Sum(mag, top, g + 1) ==> DigitsVal(s + Pad4(v)) == Sum(mag, top, g)
  {
    hide DigitsVal;
    if v < 10000 {
      Pad4Val(v);
      DigitsValConcat(s, Pad4(v));
      assert Pow10(4) == 10000;
    } else {
      assert AllDigits(NatText(v));
      LongText(v);
    }
  }

  lemma LongText(v: nat)
    requires v >= 10000
    ensures |NatText(v)| >= 4
  {
    var a := v / 10;
    var b := a / 10;
    assert |NatText(v)| == |NatText(a)| + 1 && |NatText(a)| == |NatText(b)| + 1
           && |NatText(b)| == |NatText(b / 10)| + 1;
  }

  lemma WireHoldsGroups(num: Finite)
    requires InRange(num)
    ensures HoldsGroups(Wire(num), |num.mag.groups|, num.mag.weight, num.mag)
  {
    hide Wire;
    WireFields(num);
  }

  /** Without its padding the text is the mantissa. */
  lemma CutIsMantissa(mag: Magnitude, mant: nat, dscale: nat, top: nat, after: nat, full: seq<byte>, s: seq<byte>)
    requires Canonical(mag, mant, 0 - dscale) && mag.groups != []
    requires after == (dscale + 3) / 4 && mag.weight <= top && AllDigits(full) && |full| >= 4 * after - dscale
    requires DigitsVal(full) == Sum(mag, top, 0 - after) && s == full[..|full| - (4 * after - dscale)]
    ensures DigitsVal(s) == mant > 0
  {
    hide DigitsVal, Sum, Pow10, SameValue;
    var pad := full[|s|..];
    assert full == s + pad;
    SumIsMantissa(mag, mant, dscale, top);
    DigitsValConcat(s, pad);
    DigitsValBound(pad);
    QuotientUnique(DigitsVal(s), DigitsVal(pad), mant, Pow10(|pad|));
  }

  lemma QuotientUnique(a: int, r: int, b: int, p: int)
    requires 0 <= r < p && a * p + r == b * p
    ensures a == b
  {
    assert (b - a) * p == r;
    if b - a >= 1 {
      AtLeast(b - a, p);
    } else if a - b >= 1 {
      AtLeast(a - b, p);
    }
  }

  lemma AtLeast(d: int, p: int)
    requires d >= 1 && p > 0
    ensures d * p >= p
  {
  }

  // ---- there and back -------------------------------------------------------------------------------------

  /** The mantissa of a number's text at its display scale. */
  function MantissaOf(p: Parts): nat
    requires AllDigits(p.whole) && AllDigits(p.frac)
  {
    var e := p.exp - |p.frac|;
    DigitsVal(p.whole + p.frac) * (if e > 0 then Pow10(e) else 1)
  }

  /** It is the stored value in units of the display scale. */
  lemma MantissaCanonical(p: Parts)
    requires AllDigits(p.whole) && AllDigits(p.frac)
    ensures Canonical(FiniteOf(p).mag, MantissaOf(p), 0 - FiniteOf(p).dscale)
    ensures MantissaOf(p) == 0 ==> !FiniteOf(p).neg
  {
    hide SameValue, Pack, Pow10, DigitsVal;
    var m, e := DigitsVal(p.whole + p.frac), p.exp - |p.frac|;
    PackCanonical(m, e);
    if e > 0 {
      SameShift(m, e, e);
      SameSym(m * Pow10(e), 0, m, e);
      CanonicalSame(Pack(m, e), m, e, m * Pow10(e), 0);
      ProductZero(m, Pow10(e));
    }
  }

  lemma ProductZero(a: nat, p: nat)
    requires p > 0
    ensures a * p == 0 <==> a == 0
  {
  }

  lemma CanonicalSame(g: Magnitude, m: nat, e: int, m2: nat, e2: int)
    requires Canonical(g, m, e) && SameValue(m, e, m2, e2)
    ensures Canonical(g, m2, e2)
  {
    hide SameValue;
    SameZero(m, e, m2, e2);
    if m > 0 {
      SameTrans(GroupsVal(g.groups), g.Low(), m, e, m2, e2);
    }
  }

  const EXP_MARK: byte := 0x65

  /** numberText of a decimal fraction: its mantissa, an e and its exponent. */
  function DecimalText(mant: int, exp: int): seq<byte> {
    IntText(mant) + [EXP_MARK] + IntText(exp)
  }

  /** Reading such a text gives its mantissa and exponent back. */
  lemma ParseDecimalText(mant: int, dscale: nat)
    requires dscale <= MAX_DSCALE
    ensures var abs := if mant < 0 then 0 - mant else mant;
            Parse(DecimalText(mant, 0 - dscale)) == Number(Parts(mant < 0, NatText(abs), [], 0 - dscale))
  {
    hide NatText, DigitsVal, IsExponent, ExponentVal, Parse;
    var abs: nat := if mant < 0 then 0 - mant else mant;
    var exp := IntText(0 - dscale);
    ExponentText(dscale);
    assert AllDigits(NatText(abs)) && NatText(abs) != [];
    ParseScientific(mant < 0, NatText(abs), exp);
    assert DecimalText(mant, 0 - dscale) == (if mant < 0 then [MINUS] else []) + (NatText(abs) + ([EXP_MARK] + exp));
  }

  lemma ParseScientific(neg: bool, digits: seq<byte>, exp: seq<byte>)
    requires AllDigits(digits) && digits != [] && IsExponent(exp)
    ensures Parse((if neg then [MINUS] else []) + (digits + ([EXP_MARK] + exp)))
            == Number(Parts(neg, digits, [], ExponentVal(exp)))
  {
    hide Run, IsExponent, ExponentVal;
    var s := digits + ([EXP_MARK] + exp);
    var text := (if neg then [MINUS] else []) + s;
    assert text[0] == (if neg then MINUS else digits[0]);
    assert IsSigned(text) <==> neg;
    assert (if neg then text[1..] else text) == s;
    RunOf(digits, [EXP_MARK] + exp);
    var i := |digits|;
    assert s[i] == EXP_MARK && s[..i] == digits && s[i + 1..] == exp;
  }

  lemma ExponentText(dscale: nat)
    requires dscale <= MAX_DSCALE
    ensures IsExponent(IntText(0 - dscale)) && ExponentVal(IntText(0 - dscale)) == 0 - dscale
  {
    hide NatText, DigitsVal;
    var e := IntText(0 - dscale);
    NatTextVal(dscale);
    NatTextLength(dscale, 5);
    assert Pow10(5) == 100000;
    assert AllDigits(NatText(dscale));
    RunOf(NatText(dscale), []);
    assert NatText(dscale) + [] == NatText(dscale);
    if dscale > 0 {
      assert e[1..] == NatText(dscale);
    } else {
      assert e == NatText(0) && IsDigit(e[0]);
    }
  }

  lemma {:induction false} NatTextLength(n: nat, k: nat)
    requires n < Pow10(k) && k > 0
    ensures |NatText(n)| <= k
  {
    if n >= 10 {
      assert Pow10(1) == 10;
      NatTextLength(n / 10, k - 1);
    }
  }

  /** A text that starts with a digit, or a minus and a digit, is none of the special words. */
  lemma NoSpecial(neg: bool, s: seq<byte>)
    requires s != [] && IsDigit(s[0])
    ensures SpecialSign((if neg then [MINUS] else []) + s) < 0
  {
    var text := (if neg then [MINUS] else []) + s;
    assert Lower(s)[0] == s[0];
    if neg {
      assert text[1..] == s;
      assert Lower(text) == [MINUS] + Lower(s);
      assert Lower(text)[1] == s[0];
    }
    WordStarts();
    var w := Lower(text);
    assert w[0] == if neg then MINUS else s[0];
  }

  lemma WordStarts()
    ensures AsBytes("nan")[0] == 0x6e && AsBytes("infinity")[0] == 0x69 && AsBytes("+infinity")[0] == PLUS
    ensures AsBytes("inf")[0] == 0x69 && AsBytes("+inf")[0] == PLUS
    ensures AsBytes("-infinity")[1] == 0x69 && AsBytes("-inf")[1] == 0x69
  {
  }

  /**
   Stability: what a column holds for an accepted text is read as a decimal fraction of the same value and
   scale, and writing that fraction's text to the column again gives the identical numeric.
   */
  lemma NumericStable(text: seq<byte>)
    requires NumericOf(text).Value?
    ensures var num := NumericOf(text).num;
            Parse(text).Number?
            && var mant := MantissaOf(Parse(text).parts);
            && Holds(Wire(num), num, mant)
            && NumericOf(DecimalText(Signed(num.neg, mant), 0 - num.dscale)) == Value(num)
  {
    hide SpecialSign, FiniteOf, MantissaOf, Wire, DecimalText, Canonical, SameValue, Pack, Parse, InRange;
    var p := Parse(text).parts;
    var num, mant := FiniteOf(p), MantissaOf(p);
    MantissaCanonical(p);
    ScaleOf(num);
    var mant2 := Signed(num.neg, mant);
    ParseDecimalText(mant2, num.dscale);
    NoSpecialDecimal(mant2, 0 - num.dscale);
    var p2 := Parts(mant2 < 0, NatText(mant), [], 0 - num.dscale);
    SameFinite(p2, num, mant);
  }

  lemma ScaleOf(num: Finite)
    requires InRange(num)
    ensures num.dscale <= MAX_DSCALE
  {
  }

  lemma NoSpecialDecimal(mant: int, exp: int)
    ensures SpecialSign(DecimalText(mant, exp)) < 0
  {
    hide NatText, SpecialSign, IntText;
    var abs: nat := if mant < 0 then 0 - mant else mant;
    var sign := if mant < 0 then [MINUS] else [];
    IntTextSplit(mant);
    SignedFirst(sign, NatText(abs), [EXP_MARK], IntText(exp));
    NoSpecial(mant < 0, NatText(abs) + [EXP_MARK] + IntText(exp));
  }

  lemma IntTextSplit(n: int)
    ensures var abs: nat := if n < 0 then 0 - n else n;
            && IntText(n) == (if n < 0 then [MINUS] else []) + NatText(abs)
            && NatText(abs) != [] && IsDigit(NatText(abs)[0])
  {
    hide NatText;
    var abs: nat := if n < 0 then 0 - n else n;
    assert AllDigits(NatText(abs)) && NatText(abs) != [];
    assert [] + NatText(abs) == NatText(abs);
  }

  lemma SignedFirst(sign: seq<byte>, digits: seq<byte>, mark: seq<byte>, exp: seq<byte>)
    ensures (sign + digits) + mark + exp == sign + (digits + mark + exp)
    ensures digits != [] ==> (digits + mark + exp)[0] == digits[0]
  {
  }

  /** A mantissa written at the scale of a stored number is that number. */
  lemma SameFinite(p2: Parts, num: Finite, mant: nat)
    requires p2 == Parts(Signed(num.neg, mant) < 0, NatText(mant), [], 0 - num.dscale)
    requires Canonical(num.mag, mant, 0 - num.dscale) && (mant == 0 ==> !num.neg)
    ensures FiniteOf(p2) == num
  {
    hide SameValue, Pack, NatText, DigitsVal;
    assert NatText(mant) + [] == NatText(mant);
    assert AllDigits(NatText(mant));
    NatTextVal(mant);
    PackCanonical(mant, 0 - num.dscale);
    SameSelf(mant, 0 - num.dscale);
    CanonicalUnique(Pack(mant, 0 - num.dscale), mant, 0 - num.dscale, num.mag, mant, 0 - num.dscale);
  }

  /** The decimal fraction a response carries for a stored number reads back as its mantissa and scale. */
  lemma DecimalOfNumeric(num: Finite, mant: nat, suffix: seq<byte>, depth: nat, table: Table, isTime: seq<byte> -> bool)
    requires InRange(num) && Canonical(num.mag, mant, 0 - num.dscale) && depth + 2 < MAX_DEPTH
    ensures ReadItem(DecimalBytes(Signed(num.neg, mant), 0 - num.dscale) + suffix, depth, table, isTime)
            == Done(Dec(Signed(num.neg, mant), 0 - num.dscale), suffix, table)
  {
    hide ReadItem, DecimalBytes, IntText, IntVal, Canonical;
    var n := Signed(num.neg, mant);
    MantissaLength(num, mant);
    IntTextVal(n);
    assert IsIntText(IntText(n));
    DecimalRead(IntText(n), 0 - num.dscale, suffix, depth, table, isTime);
  }

  /** Numbers of the type's range have mantissas of at most 180 thousand digits. */
  lemma MantissaLength(num: Finite, mant: nat)
    requires InRange(num) && Canonical(num.mag, mant, 0 - num.dscale)
    ensures |IntText(Signed(num.neg, mant))| <= 180001
  {
    hide SameValue, Pow10, NatText;
    if mant > 0 {
      var v, low := GroupsVal(num.mag.groups), num.mag.Low();
      GroupsBound(num.mag.groups);
      var k := Min(low, 0 - num.dscale);
      SameIn(v, low, mant, 0 - num.dscale, k);
      Pow10Add(4 * |num.mag.groups|, low - k);
      MantissaBound(mant, Pow10(0 - num.dscale - k), v, Pow10(low - k), Pow10(4 * |num.mag.groups|));
      Pow10Mono(4 * |num.mag.groups| + low - k, 180000);
      NatTextLength(mant, 180000);
    } else {
      NatTextLength(0, 1) by { assert Pow10(1) > 0; }
    }
  }

  lemma MantissaBound(mant: nat, a: nat, v: nat, b: nat, bound: nat)
    requires a > 0 && b > 0 && v < bound && mant * a == v * b
    ensures mant < bound * b
  {
    assert mant <= mant * a;
    assert v * b < bound * b;
  }

  lemma {:induction false} GroupsBound(gs: seq<group>)
    ensures GroupsVal(gs) < Pow10(4 * |gs|)
  {
    if gs == [] {
      assert Pow10(0) == 1;
    } else {
      GroupsBound(gs[..|gs| - 1]);
      Pow10Add(4, 4 * |gs| - 4);
      assert Pow10(4) == 10000;
    }
  }
}
