/**
 PostgreSQL's numeric on the wire: written from decimal text by query/write_encode_numeric.go, read
 back as a CBOR decimal fraction by query/result_cbor.go.
 */
module Numeric {
  import opened Bytes
  import opened Decimal

  const MAX_DSCALE: nat := 16383
  const PLUS: byte := 0x2b
  const POINT: byte := 0x2e

  predicate IsExpMark(c: byte) {
    c == 0x65 || c == 0x45
  }

  // ---- the text ------------------------------------------------------------------------------

  /** A decimal text: a sign, the digits before and after the point, and the exponent's text. */
  datatype Parts = Parts(neg: bool, whole: seq<byte>, frac: seq<byte>, exp: int)

  datatype Parsed = NotNumber | Number(parts: Parts)

  /** How many digits `s` starts with. */
  function Run(s: seq<byte>): (n: nat)
    ensures n <= |s| && AllDigits(s[..n]) && (n < |s| ==> !IsDigit(s[n]))
  {
    if s == [] || !IsDigit(s[0]) then 0 else 1 + Run(s[1..])
  }

  /** An exponent: at most ten characters, digits after an optional sign. */
  predicate IsExponent(e: seq<byte>) {
    && 0 < |e| <= 10
    && var digits := if e[0] == MINUS || e[0] == PLUS then e[1..] else e;
       digits != [] && Run(digits) == |digits|
  }

  function ExponentVal(e: seq<byte>): int
    requires IsExponent(e)
  {
    if e[0] == MINUS then 0 - DigitsVal(e[1..]) else if e[0] == PLUS then DigitsVal(e[1..]) else DigitsVal(e)
  }

  predicate IsSigned(text: seq<byte>) {
    text != [] && (text[0] == PLUS || text[0] == MINUS)
  }

  predicate StartsWithPoint(r: seq<byte>) {
    r != [] && r[0] == POINT
  }

  /** The digits after a point at the start of `r`, if there is one there. */
  function FracOf(r: seq<byte>): (f: seq<byte>)
    ensures AllDigits(f)
  {
    if StartsWithPoint(r) then r[1..][..Run(r[1..])] else []
  }

  function AfterFrac(r: seq<byte>): seq<byte> {
    if StartsWithPoint(r) then r[1..][Run(r[1..])..] else r
  }

  /** What the text of a number says, apart from the words for special values. */
  function Parse(text: seq<byte>): (p: Parsed)
    ensures p.Number? ==> AllDigits(p.parts.whole) && AllDigits(p.parts.frac)
  {
    if IsSigned(text) then ParseUnsigned(text[0] == MINUS, text[1..]) else ParseUnsigned(false, text)
  }

  function ParseUnsigned(neg: bool, s: seq<byte>): (p: Parsed)
    ensures p.Number? ==> AllDigits(p.parts.whole) && AllDigits(p.parts.frac)
  {
    var whole, r := s[..Run(s)], s[Run(s)..];
    var frac, tail := FracOf(r), AfterFrac(r);
    if whole == [] && frac == [] then NotNumber
    else if tail == [] then Number(Parts(neg, whole, frac, 0))
    else if IsExpMark(tail[0]) && IsExponent(tail[1..]) then Number(Parts(neg, whole, frac, ExponentVal(tail[1..])))
    else NotNumber
  }

  lemma {:induction false} RunOf(digits: seq<byte>, rest: seq<byte>)
    requires AllDigits(digits) && (rest != [] ==> !IsDigit(rest[0]))
    ensures Run(digits + rest) == |digits|
  {
    if digits == [] {
      assert digits + rest == rest;
    } else {
      RunOf(digits[1..], rest);
      assert (digits + rest)[1..] == digits[1..] + rest;
    }
  }

  // ---- the grammar of the text ------------------------------------------------------------------

  /** The pieces of a number's text; the point and the exponent are optional. */
  datatype Form = Form(sign: seq<byte>, whole: seq<byte>, point: bool, frac: seq<byte>, mark: seq<byte>, exp: seq<byte>)

  ghost predicate IsForm(f: Form) {
    && f.sign in {[], [PLUS], [MINUS]} && AllDigits(f.whole) && AllDigits(f.frac)
    && (f.whole != [] || f.frac != []) && (!f.point ==> f.frac == [])
    && ((f.mark == [] && f.exp == []) || (f.mark in {[0x65], [0x45]} && IsExponent(f.exp)))
  }

  function FormText(f: Form): seq<byte> {
    f.sign + (f.whole + (PointText(f) + (f.mark + f.exp)))
  }

  function PointText(f: Form): seq<byte> {
    if f.point then [POINT] + f.frac else []
  }

  function FormParts(f: Form): Parts
    requires f.mark == [] || IsExponent(f.exp)
  {
    Parts(f.sign == [MINUS], f.whole, f.frac, if f.mark == [] then 0 else ExponentVal(f.exp))
  }

  /** Every text of the form is read as what its pieces say. */
  lemma ParseForm(f: Form)
    requires IsForm(f)
    ensures Parse(FormText(f)) == Number(FormParts(f))
  {
    hide ParseUnsigned, IsExponent, ExponentVal;
    var s := f.whole + (PointText(f) + (f.mark + f.exp));
    ParseUnsignedForm(f);
    if f.sign == [] {
      assert FormText(f) == s;
      assert s[0] == if f.whole != [] then f.whole[0] else POINT;
    } else {
      assert FormText(f)[1..] == s;
    }
  }

  lemma ParseUnsignedForm(f: Form)
    requires IsForm(f)
    ensures ParseUnsigned(f.sign == [MINUS], f.whole + (PointText(f) + (f.mark + f.exp))) == Number(FormParts(f))
  {
    hide Run, IsExponent, ExponentVal, FracOf, AfterFrac;
    var tail := f.mark + f.exp;
    var r := PointText(f) + tail;
    var s := f.whole + r;
    WholePiece(f);
    FracPiece(f);
    assert s[..|f.whole|] == f.whole && s[|f.whole|..] == r;
    if f.mark != [] {
      assert tail[0] == f.mark[0] && tail[1..] == f.exp;
    }
  }

  lemma WholePiece(f: Form)
    requires IsForm(f)
    ensures Run(f.whole + (PointText(f) + (f.mark + f.exp))) == |f.whole|
  {
    hide Run, IsExponent;
    var r := PointText(f) + (f.mark + f.exp);
    assert r != [] ==> r[0] == (if f.point then POINT else f.mark[0]);
    RunOf(f.whole, r);
  }

  lemma FracPiece(f: Form)
    requires IsForm(f)
    ensures FracOf(PointText(f) + (f.mark + f.exp)) == f.frac
            && AfterFrac(PointText(f) + (f.mark + f.exp)) == f.mark + f.exp
  {
    hide Run, IsExponent;
    var tail := f.mark + f.exp;
    var r := PointText(f) + tail;
    if f.point {
      assert r[1..] == f.frac + tail;
      RunOf(f.frac, tail);
    } else {
      assert r == tail;
    }
  }

  /** And every text that is read as a number is of the form. */
  lemma FormOf(text: seq<byte>) returns (f: Form)
    requires Parse(text).Number?
    ensures IsForm(f) && FormText(f) == text && FormParts(f) == Parse(text).parts
  {
    hide ParseUnsigned, IsExponent, ExponentVal, PointText, AllDigits;
    if IsSigned(text) {
      assert text == [text[0]] + text[1..];
      f := UnsignedFormOf([text[0]], text[1..]);
    } else {
      f := UnsignedFormOf([], text);
    }
  }

  lemma UnsignedFormOf(sign: seq<byte>, s: seq<byte>) returns (f: Form)
    requires sign in {[], [PLUS], [MINUS]} && ParseUnsigned(sign == [MINUS], s).Number?
    ensures IsForm(f) && f.sign == sign && f.whole + (PointText(f) + (f.mark + f.exp)) == s
    ensures FormParts(f) == ParseUnsigned(sign == [MINUS], s).parts
  {
    hide Run, IsExponent, ExponentVal, FracOf, AfterFrac;
    var whole, r := s[..Run(s)], s[Run(s)..];
    var tail := AfterFrac(r);
    RestPieces(r);
    if tail == [] {
      f := Form(sign, whole, StartsWithPoint(r), FracOf(r), [], []);
    } else {
      f := Form(sign, whole, StartsWithPoint(r), FracOf(r), [tail[0]], tail[1..]);
    }
    assert f.mark + f.exp == tail;
  }

  lemma RestPieces(r: seq<byte>)
    ensures r == (if StartsWithPoint(r) then [POINT] + FracOf(r) else []) + AfterFrac(r)
    ensures !StartsWithPoint(r) ==> FracOf(r) == []
  {
    hide Run;
  }

  /** The words for values that are not finite numbers, and the sign word each is written with. */
  function SpecialSign(text: seq<byte>): int {
    var w := Lower(text);
    if w == AsBytes("nan") then 0xc000
    else if w == AsBytes("infinity") || w == AsBytes("+infinity") || w == AsBytes("inf") || w == AsBytes("+inf")
         then 0xd000
    else if w == AsBytes("-infinity") || w == AsBytes("-inf") then 0xf000
    else -1
  }

  function AsBytes(s: string): seq<byte> {
    seq(|s|, i requires 0 <= i < |s| => s[i] as int % 256)
  }

  /** Lower case as far as these words can tell: ASCII letters, and U+0130, whose lower case is an i. */
  function Lower(s: seq<byte>): seq<byte> {
    if s == [] then []
    else if |s| >= 2 && s[0] == 0xc4 && s[1] == 0xb0 then [0x69] + Lower(s[2..])
    else [if 0x41 <= s[0] <= 0x5a then s[0] + 32 else s[0]] + Lower(s[1..])
  }

  // ---- the value -------------------------------------------------------------------------------

  /** A finite numeric: sign, magnitude and display scale. */
  datatype Finite = Finite(neg: bool, mag: Magnitude, dscale: nat)

  datatype Outcome = Rejected | Special(sign: int) | Value(num: Finite)

  /** What a column receives for a text: its exact value and scale, when both are in the range of the type. */
  function NumericOf(text: seq<byte>): Outcome {
    if SpecialSign(text) >= 0 then Special(SpecialSign(text))
    else
      match Parse(text)
      case NotNumber => Rejected
      case Number(p) =>
        if InRange(FiniteOf(p)) then Value(FiniteOf(p)) else Rejected
  }

  /** The exact value the digits write, with the scale of the digits after the point. */
  function FiniteOf(p: Parts): Finite
    requires AllDigits(p.whole) && AllDigits(p.frac)
  {
    var m := DigitsVal(p.whole + p.frac);
    var e := p.exp - |p.frac|;
    Finite(p.neg && m > 0, Pack(m, e), if e < 0 then -e else 0)
  }

  /** The stored groups are exactly the number the text writes, at the scale of its digits after the point. */
  lemma NumericExact(text: seq<byte>)
    requires NumericOf(text).Value?
    ensures var num, p := NumericOf(text).num, Parse(text).parts;
            && Parse(text).Number?
            && Canonical(num.mag, DigitsVal(p.whole + p.frac), p.exp - |p.frac|)
            && num.dscale == Max(|p.frac| - p.exp, 0)
            && (num.neg <==> p.neg && num.mag.groups != [])
  {
    hide Parse, SpecialSign, Pack, DigitsVal, SameValue;
    var p := Parse(text).parts;
    PackCanonical(DigitsVal(p.whole + p.frac), p.exp - |p.frac|);
  }

  function Max(a: int, b: int): int {
    if a >= b then a else b
  }

  predicate InRange(num: Finite) {
    && num.dscale <= MAX_DSCALE
    && |num.mag.groups| <= 0x7fff && -0x8000 <= num.mag.weight <= 0x7fff
  }

  // ---- the wire ----------------------------------------------------------------------------------

  /** An int16 in two's complement, big endian. */
  function Int16(n: int): (s: seq<byte>)
    ensures |s| == 2
  {
    [(n / 256) % 256, n % 256]
  }

  function GroupBytes(gs: seq<group>): (s: seq<byte>)
    ensures |s| == 2 * |gs|
  {
    if gs == [] then [] else GroupBytes(gs[..|gs| - 1]) + Int16(gs[|gs| - 1])
  }

  function SignWord(neg: bool): int {
    if neg then 0x4000 else 0
  }

  function Wire(num: Finite): seq<byte> {
    Int16(|num.mag.groups|) + Int16(num.mag.weight) + Int16(SignWord(num.neg)) + Int16(num.dscale)
    + GroupBytes(num.mag.groups)
  }

  function SpecialWire(sign: int): seq<byte> {
    Int16(0) + Int16(0) + Int16(sign) + Int16(0)
  }

  // ---- scanning the text ---------------------------------------------------------------------------

  /** Where the run of digits from `from` ends. */
  method ScanDigits(s: seq<byte>, from: nat) returns (i: nat)
    requires from <= |s|
    ensures i == from + Run(s[from..])
  {
    i := from;
    while i < |s| && 0x30 <= s[i] <= 0x39
      invariant from <= i <= |s| && from + Run(s[from..]) == i + Run(s[i..])
    {
      assert s[i..][1..] == s[i + 1..];
      i := i + 1;
    }
  }

  method ParseText(text: seq<byte>) returns (p: Parsed)
    ensures p == Parse(text)
  {
    hide Run, ExponentVal, IsExponent, ParseUnsigned;
    var s, neg := text, false;
    if s != [] && (s[0] == PLUS || s[0] == MINUS) {
      neg := s[0] == MINUS;
      s := s[1..];
    }
    p := ParseBody(neg, s);
  }

  method ParseBody(neg: bool, s: seq<byte>) returns (p: Parsed)
    ensures p == ParseUnsigned(neg, s)
  {
    hide Run, ExponentVal, IsExponent;
    var i := ScanDigits(s, 0);
    assert s[0..] == s;
    var whole, frac := s[..i], [];
    ghost var r := s[i..];
    if i < |s| && s[i] == POINT {
      var j := ScanDigits(s, i + 1);
      frac := s[i + 1..j];
      assert r[1..] == s[i + 1..] && frac == s[i + 1..][..j - (i + 1)] && s[j..] == s[i + 1..][j - (i + 1)..];
      i := j;
    }
    assert frac == FracOf(r) && s[i..] == AfterFrac(r);
    if whole == [] && frac == [] {
      return NotNumber;
    }
    var exp := 0;
    if i < |s| && IsExpMark(s[i]) {
      if !IsExponent(s[i + 1..]) {
        return NotNumber;
      }
      exp := ExponentVal(s[i + 1..]);
      i := |s|;
    }
    if i != |s| {
      return NotNumber;
    }
    return Number(Parts(neg, whole, frac, exp));
  }

  // ---- grouping the digits ---------------------------------------------------------------------------

  /** The base-10000 groups of a digit string whose length is a multiple of four. */
  function GroupsOf(s: seq<byte>): (gs: seq<group>)
    requires AllDigits(s) && |s| % 4 == 0
    ensures |gs| == |s| / 4
  {
    if s == [] then []
    else
      FourBound(s[|s| - 4..]);
      GroupsOf(s[..|s| - 4]) + [DigitsVal(s[|s| - 4..])]
  }

  function Four(s: seq<byte>, k: nat): int
    requires k + 4 <= |s|
  {
    Digit(s[k]) * 1000 + Digit(s[k + 1]) * 100 + Digit(s[k + 2]) * 10 + Digit(s[k + 3])
  }

  lemma FourBound(s: seq<byte>)
    requires AllDigits(s) && |s| == 4
    ensures DigitsVal(s) < 10000
    ensures DigitsVal(s) == Four(s, 0)
  {
    var a, b, c := s[..1], s[..2], s[..3];
    assert a[..0] == [] && b[..1] == a && c[..2] == b && s[..3] == c;
    assert DigitsVal(a) == Digit(s[0]);
    assert DigitsVal(b) == DigitsVal(a) * 10 + Digit(s[1]);
    assert DigitsVal(c) == DigitsVal(b) * 10 + Digit(s[2]);
  }

  lemma {:induction false} GroupsOfVal(s: seq<byte>)
    requires AllDigits(s) && |s| % 4 == 0
    ensures GroupsVal(GroupsOf(s)) == DigitsVal(s)
  {
    if s != [] {
      var init, last := s[..|s| - 4], s[|s| - 4..];
      GroupsOfVal(init);
      DigitsValConcat(init, last);
      assert s == init + last;
      assert Pow10(4) == 10000;
      assert GroupsOf(s)[..|GroupsOf(s)| - 1] == GroupsOf(init);
    }
  }

  function Zeros(n: nat): (s: seq<byte>)
    ensures |s| == n && AllDigits(s) && forall i :: 0 <= i < n ==> s[i] == ZERO
  {
    seq(n, _ => ZERO)
  }

  lemma {:induction false} ZerosVal(n: nat)
    ensures DigitsVal(Zeros(n)) == 0
  {
    if n > 0 {
      ZerosVal(n - 1);
      assert Zeros(n)[..n - 1] == Zeros(n - 1);
    }
  }

  /** Digits, shifted right to sit on a group boundary and filled on the right to end on one. */
  function Padded(digits: seq<byte>, lpad: nat, ngroups: nat): (s: seq<byte>)
    requires AllDigits(digits) && lpad + |digits| <= 4 * ngroups
    ensures AllDigits(s) && |s| == 4 * ngroups
  {
    Zeros(lpad) + digits + Zeros(4 * ngroups - lpad - |digits|)
  }

  lemma PaddedVal(digits: seq<byte>, lpad: nat, ngroups: nat)
    requires AllDigits(digits) && lpad + |digits| <= 4 * ngroups
    ensures DigitsVal(Padded(digits, lpad, ngroups)) == DigitsVal(digits) * Pow10(4 * ngroups - lpad - |digits|)
  {
    hide Zeros, Pow10, DigitsVal;
    var r := 4 * ngroups - lpad - |digits|;
    DigitsValConcat(Zeros(lpad), digits);
    DigitsValConcat(Zeros(lpad) + digits, Zeros(r));
    ZerosVal(lpad);
    ZerosVal(r);
  }

  /** The groups of a stripped digit string around its point are the stored form of its value. */
  lemma GroupsCanonical(digits: seq<byte>, pointPos: int, lpad: nat, ngroups: nat)
    requires AllDigits(digits) && digits != [] && digits[0] != ZERO && digits[|digits| - 1] != ZERO
    requires lpad == (-pointPos) % 4 && ngroups == (lpad + |digits| + 3) / 4
    ensures DigitsVal(digits) > 0
    ensures Canonical(Magnitude((pointPos + lpad) / 4 - 1, GroupsOf(Padded(digits, lpad, ngroups))), DigitsVal(digits),
                      pointPos - |digits|)
  {
    hide Pow10, DigitsVal, Padded, GroupsOf, SameValue, AllDigits, GroupsVal;
    DigitsValLower(digits);
    Aligned(pointPos, lpad, ngroups, |digits|);
    var p := Padded(digits, lpad, ngroups);
    var r := 4 * ngroups - lpad - |digits|;
    PaddedVal(digits, lpad, ngroups);
    GroupsOfVal(p);
    PaddedEnds(digits, lpad, ngroups);
    SameShift(DigitsVal(digits), pointPos - |digits|, r);
  }

  /** The groups reach over the digits, and the last one ends where the padding does. */
  lemma Aligned(pointPos: int, lpad: nat, ngroups: nat, len: nat)
    requires lpad == (-pointPos) % 4 && ngroups == (lpad + len + 3) / 4
    ensures lpad < 4 && lpad + len <= 4 * ngroups
    ensures 4 * ((pointPos + lpad) / 4 - 1 - ngroups + 1) == pointPos - len - (4 * ngroups - lpad - len)
  {
    assert (pointPos + lpad) % 4 == 0;
  }

  lemma SameShift(m: nat, e: int, r: nat)
    ensures SameValue(m * Pow10(r), e - r, m, e)
  {
    assert Pow10(0) == 1;
  }

  lemma PaddedEnds(digits: seq<byte>, lpad: nat, ngroups: nat)
    requires AllDigits(digits) && digits != [] && digits[0] != ZERO && digits[|digits| - 1] != ZERO
    requires lpad < 4 && ngroups == (lpad + |digits| + 3) / 4
    ensures var gs := GroupsOf(Padded(digits, lpad, ngroups)); gs != [] && gs[0] != 0 && gs[|gs| - 1] != 0
  {
    hide DigitsVal, GroupsOf;
    var p := Padded(digits, lpad, ngroups);
    GroupAt(p, 0);
    GroupAt(p, ngroups - 1);
    assert p[lpad] == digits[0] && p[lpad + |digits| - 1] == digits[|digits| - 1];
    FourPositive(p, 0, lpad);
    FourPositive(p, 4 * (ngroups - 1), lpad + |digits| - 1);
  }

  lemma FourPositive(s: seq<byte>, k: nat, at: nat)
    requires AllDigits(s) && k <= at < k + 4 <= |s| && s[at] != ZERO
    ensures Four(s, k) > 0
  {
    assert at == k || at == k + 1 || at == k + 2 || at == k + 3;
  }

  /** Group g is the number its four digits write. */
  lemma {:induction false} GroupAt(s: seq<byte>, g: nat)
    requires AllDigits(s) && |s| % 4 == 0 && 4 * g < |s|
    ensures GroupsOf(s)[g] == Four(s, 4 * g)
    decreases |s|
  {
    hide DigitsVal, Digit;
    var init, last := s[..|s| - 4], s[|s| - 4..];
    if 4 * g == |s| - 4 {
      FourBound(last);
      assert Four(last, 0) == Four(s, |s| - 4);
    } else {
      GroupAt(init, g);
      assert Four(init, 4 * g) == Four(s, 4 * g);
    }
  }

  // ---- writing -----------------------------------------------------------------------------------------

  /** Drops the zeros at both ends of the digits; `lead` counts those in front. */
  method StripZeros(all: seq<byte>) returns (digits: seq<byte>, lead: nat)
    requires AllDigits(all)
    ensures AllDigits(digits) && lead + |digits| <= |all|
    ensures digits != [] ==> digits[0] != ZERO && digits[|digits| - 1] != ZERO
    ensures DigitsVal(all) == DigitsVal(digits) * Pow10(|all| - lead - |digits|)
  {
    hide Pow10, DigitsVal;
    lead := 0;
    assert all[0..] == all;
    while lead < |all| && all[lead] == ZERO
      invariant lead <= |all| && DigitsVal(all[lead..]) == DigitsVal(all)
    {
      DigitsValLeadingZero(all[lead..]);
      assert all[lead..][1..] == all[lead + 1..];
      lead := lead + 1;
    }
    var rest := all[lead..];
    var end := |rest|;
    assert rest[..end] == rest;
    PowZero();
    while end > 0 && rest[end - 1] == ZERO
      invariant end <= |rest| && DigitsVal(rest) == DigitsVal(rest[..end]) * Pow10(|rest| - end)
    {
      TrailingZero(rest[..end]);
      assert rest[..end][..end - 1] == rest[..end - 1];
      PowStep(DigitsVal(rest[..end - 1]), |rest| - end);
      end := end - 1;
    }
    digits := rest[..end];
  }

  lemma TrailingZero(s: seq<byte>)
    requires s != [] && AllDigits(s) && s[|s| - 1] == ZERO
    ensures DigitsVal(s) == DigitsVal(s[..|s| - 1]) * 10
  {
  }

  lemma PowZero()
    ensures Pow10(0) == 1
  {
  }

  lemma PowStep(d: nat, k: nat)
    ensures d * 10 * Pow10(k) == d * Pow10(k + 1)
  {
    MulTen(d, Pow10(k));
  }

  /** The digits, point and exponent of a number as numeric's binary form, or a refusal when it is out of range. */
  method AppendParts(dst: seq<byte>, p: Parts) returns (ok: bool, out: seq<byte>)
    requires AllDigits(p.whole) && AllDigits(p.frac)
    ensures if InRange(FiniteOf(p)) then ok && out == dst + Wire(FiniteOf(p)) else !ok
  {
    hide Pow10, DigitsVal, GroupsOf, Padded, GroupBytes, FiniteOf, Int16, Wire;
    var pointPos := |p.whole| + p.exp;
    var dscale := |p.frac| - p.exp;
    if dscale < 0 {
      dscale := 0;
    }
    FiniteScale(p);
    if dscale > MAX_DSCALE {
      return false, [];
    }
    var digits, lead := StripZeros(p.whole + p.frac);
    pointPos := pointPos - lead;
    if digits == [] {
      ZeroParts(p, |p.whole + p.frac| - lead);
      ZeroWire(FiniteOf(p));
      Four16(dst, Int16(0), Int16(0), Int16(0), Int16(dscale));
      return true, dst + Int16(0) + Int16(0) + Int16(0) + Int16(dscale);
    }
    var lpad := (-pointPos) % 4;
    var weight := (pointPos + lpad) / 4 - 1;
    var ngroups := (lpad + |digits| + 3) / 4;
    PartsGroups(p, digits, |p.whole + p.frac| - lead - |digits|, pointPos, lpad, ngroups);
    if ngroups > 0x7fff || weight > 0x7fff || weight < -0x8000 {
      return false, [];
    }
    out := dst + Int16(ngroups) + Int16(weight) + Int16(if p.neg then 0x4000 else 0) + Int16(dscale);
    out := AppendGroups(out, digits, lpad, ngroups);
    WireAfter(dst, FiniteOf(p));
    ok := true;
  }

  lemma Four16(dst: seq<byte>, a: seq<byte>, b: seq<byte>, c: seq<byte>, d: seq<byte>)
    ensures dst + a + b + c + d == dst + (a + b + c + d)
  {
  }

  lemma WireAfter(dst: seq<byte>, num: Finite)
    ensures dst + Int16(|num.mag.groups|) + Int16(num.mag.weight) + Int16(if num.neg then 0x4000 else 0)
            + Int16(num.dscale) + GroupBytes(num.mag.groups)
            == dst + Wire(num)
  {
    hide Int16, GroupBytes;
  }

  lemma FiniteScale(p: Parts)
    requires AllDigits(p.whole) && AllDigits(p.frac)
    ensures FiniteOf(p).dscale == Max(|p.frac| - p.exp, 0)
  {
  }

  lemma ZeroWire(num: Finite)
    requires num.mag == Magnitude(0, []) && !num.neg
    ensures Wire(num) == Int16(0) + Int16(0) + Int16(0) + Int16(num.dscale)
  {
    hide Int16;
    assert GroupBytes([]) == [];
  }

  /** The digits left after stripping the zeros, grouped around the point, are the stored form of the number. */
  lemma PartsGroups(p: Parts, digits: seq<byte>, cut: nat, pointPos: int, lpad: nat, ngroups: nat)
    requires AllDigits(p.whole) && AllDigits(p.frac) && AllDigits(digits)
    requires digits != [] && digits[0] != ZERO && digits[|digits| - 1] != ZERO
    requires pointPos - |digits| == p.exp - |p.frac| + cut
    requires lpad + |digits| <= 4 * ngroups && lpad == (-pointPos) % 4 && ngroups == (lpad + |digits| + 3) / 4
    requires DigitsVal(p.whole + p.frac) == DigitsVal(digits) * Pow10(cut)
    ensures FiniteOf(p).mag == Magnitude((pointPos + lpad) / 4 - 1, GroupsOf(Padded(digits, lpad, ngroups)))
    ensures FiniteOf(p).neg == p.neg
  {
    hide Pow10, DigitsVal, Pack, GroupsOf, Padded, Canonical, SameValue;
    var m, e := DigitsVal(p.whole + p.frac), p.exp - |p.frac|;
    GroupsCanonical(digits, pointPos, lpad, ngroups);
    SameShift(DigitsVal(digits), pointPos - |digits|, cut);
    SamePack(Magnitude((pointPos + lpad) / 4 - 1, GroupsOf(Padded(digits, lpad, ngroups))), DigitsVal(digits),
             pointPos - |digits|, m, e);
  }

  lemma ZeroParts(p: Parts, t: nat)
    requires AllDigits(p.whole) && AllDigits(p.frac) && DigitsVal(p.whole + p.frac) == DigitsVal([]) * Pow10(t)
    ensures FiniteOf(p).mag == Magnitude(0, []) && !FiniteOf(p).neg
  {
  }

  lemma SamePack(g: Magnitude, m1: nat, e1: int, m: nat, e: int)
    requires Canonical(g, m1, e1) && m1 > 0 && SameValue(m, e, m1, e1)
    ensures Pack(m, e) == g && m > 0
  {
    hide SameValue, Pack;
    PackCanonical(m, e);
    CanonicalUnique(Pack(m, e), m, e, g, m1, e1);
    SameZero(m, e, m1, e1);
  }

  /** Appends the groups, four digits of the padded string at a time. */
  method AppendGroups(dst: seq<byte>, digits: seq<byte>, lpad: nat, ngroups: nat) returns (out: seq<byte>)
    requires AllDigits(digits) && lpad + |digits| <= 4 * ngroups
    ensures out == dst + GroupBytes(GroupsOf(Padded(digits, lpad, ngroups)))
  {
    hide DigitsVal, GroupsOf;
    ghost var p := Padded(digits, lpad, ngroups);
    ghost var gs := GroupsOf(p);
    out := dst;
    for g := 0 to ngroups
      invariant out == dst + GroupBytes(gs[..g])
    {
      var k := g * 4;
      GroupAt(p, g);
      var v := DigitAt(digits, lpad, k) * 1000 + DigitAt(digits, lpad, k + 1) * 100 + DigitAt(digits, lpad, k + 2) * 10
          + DigitAt(digits, lpad, k + 3);
      assert v == gs[g];
      assert gs[..g + 1][..g] == gs[..g];
      out := out + Int16(v);
    }
    assert gs[..ngroups] == gs;
  }

  /** Digit k of the padded string. */
  function DigitAt(digits: seq<byte>, lpad: nat, k: nat): int {
    if k < lpad || k - lpad >= |digits| then 0 else Digit(digits[k - lpad])
  }

  /** appendNumeric: the exact value and display scale of the text, in numeric's binary form. */
  method AppendNumeric(dst: seq<byte>, text: seq<byte>) returns (ok: bool, out: seq<byte>)
    ensures match NumericOf(text)
            case Rejected => !ok
            case Special(sign) => ok && out == dst + SpecialWire(sign)
            case Value(num) => ok && out == dst + Wire(num)
  {
    hide Parse, FiniteOf, Wire, SpecialSign;
    var sign := SpecialSign(text);
    if sign >= 0 {
      return true, dst + Int16(0) + Int16(0) + Int16(sign) + Int16(0);
    }
    var p := ParseText(text);
    if p.NotNumber? {
      return false, [];
    }
    ok, out := AppendParts(dst, p.parts);
  }
}
