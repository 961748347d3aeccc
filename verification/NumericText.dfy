/**
 What the texts that PostgreSQL's numeric accepts stand for, said from their own characters: a number from its sign, its
 digits and its exponent, and the words for the values that are no finite number.
 */
module NumericText {
  import opened Bytes
  import opened Decimal
  import opened Numeric

  // ---- numbers ------------------------------------------------------------------------------------------------

  /** An optional sign before digits, and what it makes of their value. */
  ghost predicate SignedDigits(sign: seq<byte>, x: seq<byte>, n: int)
    requires AllDigits(x)
  {
    (sign == [] && n == DigitsVal(x)) || (sign == [0x2b] && n == DigitsVal(x))
    || (sign == [0x2d] && n + DigitsVal(x) == 0)
  }

  /** A number: digits on either side of an optional point, and an optional exponent, of at most ten characters. */
  datatype Spelled = Spelled(sign: seq<byte>, whole: seq<byte>, point: bool, frac: seq<byte>, mark: seq<byte>,
                             expSign: seq<byte>, exp: seq<byte>)

  ghost predicate SpelledOk(f: Spelled) {
    && (f.sign == [] || f.sign == [0x2b] || f.sign == [0x2d]) && AllDigits(f.whole) && AllDigits(f.frac)
    && (f.whole != [] || f.frac != []) && (!f.point ==> f.frac == [])
    && (f.mark == [] ==> f.expSign == [] && f.exp == [])
    && (f.mark != [] ==>
          && (f.mark == [0x65] || f.mark == [0x45]) && (f.expSign == [] || f.expSign == [0x2b] || f.expSign == [0x2d])
          && f.exp != [] && AllDigits(f.exp) && |f.expSign| + |f.exp| <= 10)
  }

  function NumberText(f: Spelled): seq<byte> {
    f.sign + (f.whole + ((if f.point then [0x2e] + f.frac else []) + (f.mark + (f.expSign + f.exp))))
  }

  /** The range of the type: its scale, how many groups of four digits, and where they start. */
  predicate Storable(mag: Magnitude, dscale: nat) {
    dscale <= 16383 && |mag.groups| <= 32767 && -32768 <= mag.weight <= 32767
  }

  /**
   A number stands for its digits as one integer, at the power of ten its exponent leaves them; that is stored exactly,
   with the digits it shows after the point, or refused when the type cannot hold it.
   */
  lemma NumberExact(f: Spelled, e: int, mag: Magnitude)
    requires SpelledOk(f)
    requires if f.mark == [] then e == 0 else SignedDigits(f.expSign, f.exp, e)
    requires Canonical(mag, DigitsVal(f.whole + f.frac), e - |f.frac|)
    ensures var dscale: nat := if |f.frac| > e then |f.frac| - e else 0;
            NumericOf(NumberText(f)) == if Storable(mag, dscale)
                                  then Value(Finite(f.sign == [0x2d] && DigitsVal(f.whole + f.frac) > 0, mag, dscale))
                                  else Rejected
  {
    hide Parse, SpecialSign, DigitsVal, Canonical, Pack, IsExponent, ExponentVal;
    var form := Form(f.sign, f.whole, f.point, f.frac, f.mark, f.expSign + f.exp);
    SpelledForm(f, e);
    ParseForm(form);
    assert FormText(form) == NumberText(f);
    NumberIsNoWord(f);
    var m := DigitsVal(f.whole + f.frac);
    PackCanonical(m, e - |f.frac|);
    OneMagnitude(m, e - |f.frac|, mag, Pack(m, e - |f.frac|));
  }

  lemma OneMagnitude(m: nat, e: int, a: Magnitude, b: Magnitude)
    requires Canonical(a, m, e) && Canonical(b, m, e)
    ensures a == b
  {
    hide GroupsVal;
    CanonicalUnique(a, m, e, b, m, e);
  }

  lemma SpelledForm(f: Spelled, e: int)
    requires SpelledOk(f) && if f.mark == [] then e == 0 else SignedDigits(f.expSign, f.exp, e)
    ensures var form := Form(f.sign, f.whole, f.point, f.frac, f.mark, f.expSign + f.exp);
            IsForm(form) && FormParts(form) == Parts(f.sign == [0x2d], f.whole, f.frac, e)
  {
    hide Run, DigitsVal;
    if f.mark != [] {
      var x := f.expSign + f.exp;
      AllRun(f.exp);
      if f.expSign == [] {
        assert x == f.exp && IsDigit(x[0]);
      } else {
        assert x[1..] == f.exp;
      }
    }
  }

  lemma {:induction false} AllRun(digits: seq<byte>)
    requires AllDigits(digits)
    ensures Run(digits) == |digits|
  {
    if digits != [] {
      AllRun(digits[1..]);
    }
  }

  lemma NumberIsNoWord(f: Spelled)
    requires SpelledOk(f)
    ensures SpecialSign(NumberText(f)) < 0
  {
    var t := NumberText(f);
    var c := if f.whole != [] then f.whole[0] else 0x2e;
    var rest := t[|f.sign|..];
    assert rest[0] == c;
    if f.sign == [] {
      assert t[0] == c;
      FirstLower(t);
    } else {
      assert t[0] == f.sign[0] && t[1] == c && t[1..][0] == c;
      FirstLower(t);
      FirstLower(t[1..]);
      assert Lower(t)[1..] == Lower(t[1..]);
    }
    WordLetters(Lower(t));
  }

  lemma FirstLower(t: seq<byte>)
    requires t != [] && t[0] < 0x41
    ensures Lower(t) != [] && Lower(t)[0] == t[0] && Lower(t)[1..] == Lower(t[1..])
  {
  }

  /** Every word starts with a letter after its sign. */
  lemma WordLetters(w: seq<byte>)
    ensures w == AsBytes("nan") || w == AsBytes("infinity") || w == AsBytes("inf") ==> w != [] && w[0] >= 0x61
    ensures w == AsBytes("+infinity") || w == AsBytes("+inf") || w == AsBytes("-infinity") || w == AsBytes("-inf")
            ==> |w| >= 2 && w[0] < 0x30 && w[1] >= 0x61
  {
  }

  // ---- words ----------------------------------------------------------------------------------------------------

  /** The text is the word, each letter in either case; U+0130 counts as an i. */
  ghost predicate Says(text: seq<byte>, word: string)
    decreases |word|
  {
    if word == "" then text == []
    else
      || (text != [] && (text[0] == word[0] as int
                         || ('a' <= word[0] <= 'z' && text[0] == word[0] as int - 'a' as int + 'A' as int))
          && Says(text[1..], word[1..]))
      || (word[0] == 'i' && |text| >= 2 && text[0] == 0xc4 && text[1] == 0xb0 && Says(text[2..], word[1..]))
  }

  predicate Plain(word: string) {
    forall i :: 0 <= i < |word| ==> word[i] == '+' || word[i] == '-' || 'a' <= word[i] <= 'z'
  }

  lemma {:induction false} SaysLower(text: seq<byte>, word: string)
    requires Plain(word)
    ensures Says(text, word) <==> Lower(text) == AsBytes(word)
    decreases |word|
  {
    var w := AsBytes(word);
    if word == "" {
      assert w == [];
    } else {
      assert w[1..] == AsBytes(word[1..]) && w[0] == word[0] as int;
      if text != [] {
        SaysLower(text[1..], word[1..]);
        LowerStep(text);
        if |text| >= 2 {
          SaysLower(text[2..], word[1..]);
        }
      }
    }
  }

  lemma LowerStep(text: seq<byte>)
    requires text != []
    ensures Lower(text) != []
    ensures |text| >= 2 && text[0] == 0xc4 && text[1] == 0xb0
            ==> Lower(text)[0] == 0x69 && Lower(text)[1..] == Lower(text[2..])
    ensures !(|text| >= 2 && text[0] == 0xc4 && text[1] == 0xb0)
            ==> Lower(text)[0] == (if 0x41 <= text[0] <= 0x5a then text[0] + 32 else text[0])
                && Lower(text)[1..] == Lower(text[1..])
  {
  }

  ghost predicate SaysInfinity(text: seq<byte>) {
    Says(text, "infinity") || Says(text, "+infinity") || Says(text, "inf") || Says(text, "+inf")
  }

  ghost predicate SaysMinusInfinity(text: seq<byte>) {
    Says(text, "-infinity") || Says(text, "-inf")
  }

  /** The words, and no other texts, are written with the sign words that are read back as NaN and the infinities. */
  lemma Words(text: seq<byte>)
    ensures NumericOf(text) == Special(0xc000) <==> Says(text, "nan")
    ensures NumericOf(text) == Special(0xd000) <==> SaysInfinity(text)
    ensures NumericOf(text) == Special(0xf000) <==> SaysMinusInfinity(text)
    ensures NumericOf(text).Special? <==> Says(text, "nan") || SaysInfinity(text) || SaysMinusInfinity(text)
  {
    hide Parse, FiniteOf, Says, Lower;
    SaysLower(text, "nan");
    SaysLower(text, "infinity");
    SaysLower(text, "+infinity");
    SaysLower(text, "inf");
    SaysLower(text, "+inf");
    SaysLower(text, "-infinity");
    SaysLower(text, "-inf");
    WordLetters(Lower(text));
    Different();
  }

  lemma Different()
    ensures AsBytes("nan") != AsBytes("inf") && AsBytes("nan") != AsBytes("infinity")
    ensures AsBytes("inf")[0] == 0x69 && AsBytes("infinity")[0] == 0x69 && AsBytes("nan")[0] == 0x6e
    ensures AsBytes("-inf")[0] == 0x2d && AsBytes("-infinity")[0] == 0x2d
    ensures AsBytes("+inf")[0] == 0x2b && AsBytes("+infinity")[0] == 0x2b
  {
  }

  // ---- the bytes --------------------------------------------------------------------------------------------------

  /** Two bytes, the higher one first. */
  ghost predicate Word16(d: seq<byte>, at: nat, n: int) {
    at + 2 <= |d| && 0 <= n < 0x10000 && (d[at] as int) * 256 + d[at + 1] == n
  }

  /**
   numeric_recv: how many groups, the weight of the first in two's complement, the sign, the scale, and the groups.
   */
  lemma WireIs(num: Finite)
    requires Storable(num.mag, num.dscale)
    ensures var d, g := Wire(num), num.mag.groups;
            && |d| == 8 + 2 * |g| && Word16(d, 0, |g|)
            && Word16(d, 2, if num.mag.weight < 0 then num.mag.weight + 0x10000 else num.mag.weight)
            && Word16(d, 4, if num.neg then 0x4000 else 0) && Word16(d, 6, num.dscale)
            && forall i :: 0 <= i < |g| ==> Word16(d, 8 + 2 * i, g[i])
  {
    hide GroupBytes;
    var d, g := Wire(num), num.mag.groups;
    var bytes := GroupBytes(g);
    assert d[8..] == bytes;
    forall i | 0 <= i < |g| ensures Word16(d, 8 + 2 * i, g[i]) {
      GroupAtByte(g, i);
      assert d[8 + 2 * i] == bytes[2 * i] && d[8 + 2 * i + 1] == bytes[2 * i + 1];
    }
  }

  lemma {:induction false} GroupAtByte(gs: seq<group>, i: nat)
    requires i < |gs|
    ensures Word16(GroupBytes(gs), 2 * i, gs[i])
  {
    var init := GroupBytes(gs[..|gs| - 1]);
    if i < |gs| - 1 {
      GroupAtByte(gs[..|gs| - 1], i);
      assert GroupBytes(gs)[2 * i] == init[2 * i] && GroupBytes(gs)[2 * i + 1] == init[2 * i + 1];
    }
  }

  lemma SpecialIs(sign: int)
    requires 0 <= sign < 0x10000
    ensures var d := SpecialWire(sign);
            |d| == 8 && Word16(d, 0, 0) && Word16(d, 2, 0) && Word16(d, 4, sign) && Word16(d, 6, 0)
  {
  }
}
