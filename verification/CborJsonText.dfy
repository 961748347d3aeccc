/**
 The JSON text written for a CBOR item is a JSON document, and one that says what the item says: the same literals, the
 same integers, the same digits and exponents, arrays in order, objects with their keys in ascending order.
 */
module CborJsonText {
  import opened Wrappers
  import opened Bytes
  import opened CborItem
  import opened CborJson
  import opened JsonText
  import NumericCbor

  // ---- the order of keys ------------------------------------------------------------------------------------------

  /** Byte strings in dictionary order: one is less at the first place they differ, or by ending first. */
  ghost predicate Less(a: seq<byte>, b: seq<byte>) {
    exists k: nat :: k <= |a| && k < |b| && LessAt(a, b, k)
  }

  ghost predicate LessAt(a: seq<byte>, b: seq<byte>, k: nat)
    requires k <= |a| && k < |b|
  {
    a[..k] == b[..k] && (k == |a| || a[k] < b[k])
  }

  lemma {:induction false} BeforeIff(a: seq<byte>, b: seq<byte>)
    ensures Before(a, b) <==> Less(a, b)
  {
    if b != [] {
      if a == [] || a[0] < b[0] {
        assert LessAt(a, b, 0);
      } else if a[0] > b[0] {
        assert forall k: nat :: 0 < k <= |a| && k < |b| ==> a[..k][0] != b[..k][0];
      } else {
        BeforeIff(a[1..], b[1..]);
        if Less(a[1..], b[1..]) {
          var k: nat :| k <= |a[1..]| && k < |b[1..]| && LessAt(a[1..], b[1..], k);
          assert a[..k + 1] == [a[0]] + a[1..][..k] && b[..k + 1] == [b[0]] + b[1..][..k];
          assert LessAt(a, b, k + 1);
        }
        if Less(a, b) {
          var k: nat :| k <= |a| && k < |b| && LessAt(a, b, k);
          assert k > 0;
          assert a[1..][..k - 1] == a[..k][1..] && b[1..][..k - 1] == b[..k][1..];
          assert LessAt(a[1..], b[1..], k - 1);
        }
      }
    }
  }

  /** Every index below the count once, keys ascending. */
  ghost predicate Sorts(order: seq<nat>, pairs: seq<(seq<byte>, Item)>) {
    && |order| == |pairs|
    && (forall k :: 0 <= k < |order| ==> order[k] < |pairs|)
    && (forall i: nat :: i < |pairs| ==> i in order)
    && forall k :: 0 < k < |order| ==> !Less(pairs[order[k]].0, pairs[order[k - 1]].0)
  }

  lemma OrderIs(pairs: seq<(seq<byte>, Item)>)
    ensures Sorts(Order(CborItem.Keys(pairs), |pairs|), pairs)
  {
    hide Before, Less, Order;
    var keys := CborItem.Keys(pairs);
    var order := Order(keys, |pairs|);
    OrderSorts(keys, |pairs|);
    forall k | 0 < k < |order| ensures !Less(pairs[order[k]].0, pairs[order[k - 1]].0) {
      BeforeIff(pairs[order[k]].0, pairs[order[k - 1]].0);
    }
    forall i: nat | i < |pairs| ensures i in order {
      assert multiset(order)[i] == 1;
    }
  }

  // ---- what a document says of an item ----------------------------------------------------------------------------

  function Signed(neg: bool, digits: seq<byte>): int
    requires AllDigits(digits)
  {
    if neg then 0 - DigitsVal(digits) else DigitsVal(digits)
  }

  /** A number without a point or an exponent, of some value. */
  ghost predicate IsInteger(n: Numeral, v: int) {
    n.frac == [] && n.mark == [] && n.exp == [] && AllDigits(n.whole) && v == Signed(n.neg, n.whole)
  }

  /** Digits and an exponent of ten. */
  ghost predicate IsDecimal(n: Numeral, mant: int, exp: int) {
    && n.frac == [] && (n.mark == [0x65] || n.mark == [0x45]) && AllDigits(n.whole) && mant == Signed(n.neg, n.whole)
    && if n.exp != [] && n.exp[0] == 0x2d then AllDigits(n.exp[1..]) && exp == 0 - DigitsVal(n.exp[1..])
       else AllDigits(n.exp) && exp == DigitsVal(n.exp)
  }

  /** Which numbers a float may be written as. */
  type FloatForms = (Numeral, nat, nat) -> bool

  ghost predicate Says(j: Json, x: Item, floats: FloatForms)
    decreases x, 0
  {
    match x
    case Null => j == JNull
    case Bool(b) => j == JBool(b)
    case Text(s) => j.JString? && StringValue(j.str) == s
    case Float(width, bits) => j.JNumber? && floats(j.num, width, bits)
    case Int(n) => j.JNumber? && IsInteger(j.num, n)
    case Big(n) => j.JNumber? && IsInteger(j.num, n)
    case Dec(mant, exp) => j.JNumber? && IsDecimal(j.num, mant, exp)
    case Arr(items) => j.JArray? && SaysAll(j.items, items, floats)
    case Map(pairs) => j.JObject? && exists order :: Sorts(order, pairs) && SaysPairs(j.members, pairs, order, floats)
    case _ => false
  }

  ghost predicate SaysAll(es: seq<Element>, items: seq<Item>, floats: FloatForms)
    decreases items, 0
  {
    && |es| == |items|
    && (items == []
        || (Says(es[|es| - 1].value, items[|items| - 1], floats)
            && SaysAll(es[..|es| - 1], items[..|items| - 1], floats)))
  }

  ghost predicate SaysPairs(ms: seq<Member>, pairs: seq<(seq<byte>, Item)>, order: seq<nat>, floats: FloatForms)
    requires forall k :: 0 <= k < |order| ==> order[k] < |pairs|
    decreases pairs, 1
  {
    && |ms| == |order|
    && forall k :: 0 <= k < |ms| ==> SaysPair(ms[k], pairs, order[k], floats)
  }

  ghost predicate SaysPair(m: Member, pairs: seq<(seq<byte>, Item)>, i: nat, floats: FloatForms)
    requires i < |pairs|
    decreases pairs, 0
  {
    var p := pairs[i];
    assert (pairs decreases to p);
    assert (p decreases to p.1);
    StringValue(m.key) == p.0 && Says(m.elem.value, p.1, floats)
  }

  // ---- which items have a text ------------------------------------------------------------------------------------

  /** An item all of whose parts have a JSON form, its exponents within 64 bits. */
  ghost predicate Writable(x: Item, f: Forms)
    decreases x, 0
  {
    match x
    case Text(s) => f.quote(s).Some?
    case Float(width, bits) => f.float(width, bits).Some?
    case Arr(items) => forall i :: 0 <= i < |items| ==> Writable(items[i], f)
    case Map(pairs) => forall i :: 0 <= i < |pairs| ==> WritablePair(pairs, i, f)
    case _ => x.Null? || x.Bool? || x.Int? || x.Big? || x.Dec?
  }

  ghost predicate WritablePair(pairs: seq<(seq<byte>, Item)>, i: nat, f: Forms)
    requires i < |pairs|
    decreases pairs, 0
  {
    var p := pairs[i];
    assert (pairs decreases to p);
    assert (p decreases to p.1);
    f.quote(p.0).Some? && Writable(p.1, f)
  }

  /**
   An item has a text if and only if all its parts have one: byte strings, dates, times and unknown tags have none.
   */
  lemma {:induction false} JsonIff(x: Item, f: Forms)
    ensures JsonOf(x, f).Some? <==> Writable(x, f)
    decreases x, 2
  {
    hide Order, WritablePair;
    match x
    case Arr(items) => ItemsIff(items, f);
    case Map(pairs) =>
      var order := Order(CborItem.Keys(pairs), |pairs|);
      PairsIff(pairs, order, f);
      OrderIs(pairs);
      if forall k :: 0 <= k < |order| ==> WritablePair(pairs, order[k], f) {
        forall i: nat | i < |pairs| ensures WritablePair(pairs, i, f) {
          assert i in order;
          var k :| 0 <= k < |order| && order[k] == i;
        }
      }
    case _ =>
  }

  lemma {:induction false} ItemsIff(items: seq<Item>, f: Forms)
    ensures ItemsOf(items, f).Some? <==> forall i :: 0 <= i < |items| ==> Writable(items[i], f)
    decreases items, 1
  {
    hide JsonOf, Writable;
    if items != [] {
      var n := |items| - 1;
      ItemsIff(items[..n], f);
      JsonIff(items[n], f);
      assert forall i :: 0 <= i < n ==> items[i] == items[..n][i];
    }
  }

  lemma {:induction false} PairsIff(pairs: seq<(seq<byte>, Item)>, order: seq<nat>, f: Forms)
    requires forall k :: 0 <= k < |order| ==> order[k] < |pairs|
    ensures PairsOf(pairs, order, f).Some? <==> forall k :: 0 <= k < |order| ==> WritablePair(pairs, order[k], f)
    decreases pairs, 1, |order|
  {
    hide WritablePair, PairOf;
    if order != [] {
      var n := |order| - 1;
      PairsIff(pairs, order[..n], f);
      PairIff(pairs, order[n], n, f);
      assert forall k :: 0 <= k < n ==> order[k] == order[..n][k];
    }
  }

  lemma {:induction false} PairIff(pairs: seq<(seq<byte>, Item)>, i: nat, n: nat, f: Forms)
    requires i < |pairs|
    ensures PairOf(pairs, i, n, f).Some? <==> WritablePair(pairs, i, f)
    decreases pairs, 0, 0
  {
    hide JsonOf, Writable;
    var p := pairs[i];
    assert (pairs decreases to p);
    assert (p decreases to p.1);
    JsonIff(p.1, f);
  }

  // ---- the text is a document -------------------------------------------------------------------------------------

  ghost predicate QuotedAs(text: seq<byte>, s: seq<byte>, ps: seq<piece>) {
    text == [0x22] + StringTail(ps) && StringValue(ps) == s
  }

  /** The spelling of strings is JSON for the string, and that of floats a number allowed for the float. */
  ghost predicate Spelling(f: Forms, floats: FloatForms) {
    && (forall s :: f.quote(s).Some? ==> exists ps: seq<piece> :: QuotedAs(f.quote(s).value, s, ps))
    && (forall width, bits :: f.float(width, bits).Some? ==>
          exists n: numeral :: NumeralText(n) == f.float(width, bits).value && floats(n, width, bits))
  }

  /** Decimal exponents of 64 bits, which is all the reader makes. */
  ghost predicate Exponents(x: Item)
    decreases x, 0
  {
    match x
    case Dec(_, exp) => IsInt64(exp)
    case Arr(items) => forall i :: 0 <= i < |items| ==> Exponents(items[i])
    case Map(pairs) => forall i :: 0 <= i < |pairs| ==> ExponentsPair(pairs, i)
    case _ => true
  }

  ghost predicate ExponentsPair(pairs: seq<(seq<byte>, Item)>, i: nat)
    requires i < |pairs|
    decreases pairs, 0
  {
    var p := pairs[i];
    assert (pairs decreases to p);
    assert (p decreases to p.1);
    Exponents(p.1)
  }

  lemma IntegerNumeral(n: int) returns (num: numeral)
    ensures NumeralText(num) == IntText(n) && IsInteger(num, n)
  {
    var digits := NatText(if n < 0 then -n else n);
    NatTextVal(if n < 0 then -n else n);
    ShortZero(if n < 0 then -n else n);
    var m := Numeral(n < 0, digits, [], [], []);
    assert NumeralOk(m);
    num := m;
    assert NumeralText(num) == IntText(n);
  }

  lemma ShortZero(n: nat)
    ensures NatText(n)[0] == ZERO ==> |NatText(n)| == 1
  {
  }

  lemma ExponentText(exp: int)
    requires IsInt64(exp)
    ensures IsExp(IntText(exp)) && AllDigits(ExpDigits(IntText(exp)))
    ensures if exp < 0 then IntText(exp)[0] == 0x2d && AllDigits(IntText(exp)[1..])
                            && exp == 0 - DigitsVal(IntText(exp)[1..])
            else IntText(exp)[0] != 0x2d && AllDigits(IntText(exp)) && exp == DigitsVal(IntText(exp))
  {
    hide NatText, DigitsVal;
    var e, power := IntText(exp), NatText(if exp < 0 then -exp else exp);
    NatTextVal(if exp < 0 then -exp else exp);
    if exp < 0 {
      assert e == [MINUS] + power && e[1..] == power && e[..1] == [MINUS];
    } else {
      assert IsDigit(power[0]) && !IsSign(e[..1]);
    }
  }

  lemma DecimalNumeral(mant: int, exp: int) returns (num: numeral)
    requires IsInt64(exp)
    ensures NumeralText(num) == NumericCbor.DecimalText(mant, exp) && IsDecimal(num, mant, exp)
  {
    hide NatText, DigitsVal, IsExp, IntText;
    var abs := if mant < 0 then -mant else mant;
    NatTextVal(abs);
    ShortZero(abs);
    ExponentText(exp);
    var m := Numeral(mant < 0, NatText(abs), [], [0x65], IntText(exp));
    assert NumeralOk(m);
    num := m;
    SignedText(mant);
    NoFraction(mant < 0, NatText(abs), IntText(exp));
  }

  lemma NoFraction(neg: bool, whole: seq<byte>, exp: seq<byte>)
    ensures NumeralText(Numeral(neg, whole, [], [0x65], exp)) == (SignText(neg) + whole) + [0x65] + exp
  {
    assert FracText([]) + ([0x65] + exp) == [0x65] + exp;
  }

  lemma SignedText(n: int)
    ensures IntText(n) == SignText(n < 0) + NatText(if n < 0 then -n else n)
  {
  }

  /** The text written for an item is that of a document that says what the item says. */
  lemma {:induction false} JsonDocument(x: Item, f: Forms, floats: FloatForms) returns (j: Json)
    requires JsonOf(x, f).Some? && Exponents(x) && Spelling(f, floats)
    ensures TextOf(j) == JsonOf(x, f).value && Says(j, x, floats)
    decreases x, 2
  {
    hide Order, Spelling, TextOf, Commas, NumeralText, StringTail, StringValue;
    match x
    case Null => j := JNull; Literals(true);
    case Bool(b) => j := JBool(b); Literals(b);
    case Text(s) => j := QuotedText(s, f, floats);
    case Float(width, bits) => j := FloatText(width, bits, f, floats);
    case Int(n) =>
      var num := IntegerNumeral(n);
      j := JNumber(num);
      NumberIs(num);
    case Big(n) =>
      var num := IntegerNumeral(n);
      j := JNumber(num);
      NumberIs(num);
    case Dec(mant, exp) =>
      var num := DecimalNumeral(mant, exp);
      j := JNumber(num);
      NumberIs(num);
    case Arr(items) =>
      var es := ItemsDocument(items, f, floats);
      j := JArray([], es);
      ArrayText(es);
    case Map(pairs) =>
      OrderIs(pairs);
      var ms := PairsDocument(pairs, Order(CborItem.Keys(pairs), |pairs|), f, floats);
      j := JObject([], ms);
      ObjectText(ms);
  }

  lemma Literals(b: bool)
    ensures TextOf(JNull) == NULL_TEXT && TextOf(JBool(b)) == if b then TRUE_TEXT else FALSE_TEXT
  {
  }

  lemma NumberIs(num: numeral)
    ensures TextOf(JNumber(num)) == NumeralText(num)
  {
  }

  lemma QuotedText(s: seq<byte>, f: Forms, floats: FloatForms) returns (j: Json)
    requires f.quote(s).Some? && Spelling(f, floats)
    ensures j.JString? && TextOf(j) == f.quote(s).value && StringValue(j.str) == s
  {
    hide StringTail, StringValue;
    var ps: seq<piece> :| QuotedAs(f.quote(s).value, s, ps);
    j := JString(ps);
  }

  lemma FloatText(width: nat, bits: nat, f: Forms, floats: FloatForms) returns (j: Json)
    requires f.float(width, bits).Some? && Spelling(f, floats)
    ensures j.JNumber? && TextOf(j) == f.float(width, bits).value && floats(j.num, width, bits)
  {
    hide NumeralText;
    var n: numeral :| NumeralText(n) == f.float(width, bits).value && floats(n, width, bits);
    j := JNumber(n);
  }

  lemma {:induction false} ItemsDocument(items: seq<Item>, f: Forms, floats: FloatForms) returns (es: seq<Element>)
    requires ItemsOf(items, f).Some? && Spelling(f, floats) && forall i :: 0 <= i < |items| ==> Exponents(items[i])
    ensures SaysAll(es, items, floats) && Commas(ElementTexts(es)) == ItemsOf(items, f).value
    decreases items, 1
  {
    hide JsonOf, Spelling, TextOf, Says, Exponents;
    if items == [] {
      es := [];
    } else {
      var n := |items| - 1;
      assert forall i :: 0 <= i < n ==> items[..n][i] == items[i];
      var before := ItemsDocument(items[..n], f, floats);
      var j := JsonDocument(items[n], f, floats);
      var e := Element([], j, []);
      es := before + [e];
      assert es[..n] == before && ElementText(e) == TextOf(j);
      OneMoreText(ElementTexts(before), ElementTexts(es), TextOf(j));
    }
  }

  /** Texts with one more after a comma. */
  lemma OneMoreText(before: seq<seq<byte>>, texts: seq<seq<byte>>, last: seq<byte>)
    requires texts == before + [last]
    ensures Commas(texts) == Commas(before) + (Comma(|before|) + last)
  {
    hide Commas;
    CommasLast(texts);
    assert texts[..|texts| - 1] == before;
  }

  lemma CommasLast(texts: seq<seq<byte>>)
    requires texts != []
    ensures Commas(texts) == Commas(texts[..|texts| - 1]) + (Comma(|texts| - 1) + texts[|texts| - 1])
  {
  }

  lemma {:induction false} PairsDocument(pairs: seq<(seq<byte>, Item)>, order: seq<nat>, f: Forms, floats: FloatForms)
    returns (ms: seq<Member>)
    requires (forall k :: 0 <= k < |order| ==> order[k] < |pairs|) && PairsOf(pairs, order, f).Some?
    requires Spelling(f, floats) && forall i :: 0 <= i < |pairs| ==> ExponentsPair(pairs, i)
    ensures SaysPairs(ms, pairs, order, floats) && Commas(MemberTexts(ms)) == PairsOf(pairs, order, f).value
    decreases pairs, 1, |order|
  {
    hide Spelling, SaysPair, ExponentsPair, PairOf, MemberText, MemberTexts, Commas, SaysPairs;
    if order == [] {
      ms := [];
      NoPairsSaid(pairs, floats);
    } else {
      var n := |order| - 1;
      var before := PairsDocument(pairs, order[..n], f, floats);
      var m := PairDocument(pairs, order[n], n, f, floats);
      ms := before + [m];
      SaysMore(before, m, pairs, order, floats);
      TextsMore(before, m);
      OneMoreText(MemberTexts(before), MemberTexts(ms), MemberText(m));
    }
  }

  lemma NoPairsSaid(pairs: seq<(seq<byte>, Item)>, floats: FloatForms)
    ensures SaysPairs([], pairs, [], floats) && Commas(MemberTexts([])) == []
  {
  }

  lemma SaysAt(ms: seq<Member>, pairs: seq<(seq<byte>, Item)>, order: seq<nat>, floats: FloatForms, n: nat, k: nat)
    requires (forall k :: 0 <= k < |order| ==> order[k] < |pairs|) && k < n <= |order|
    requires SaysPairs(ms, pairs, order[..n], floats)
    ensures |ms| == n && SaysPair(ms[k], pairs, order[k], floats)
  {
    hide SaysPair;
    assert order[..n][k] == order[k];
  }

  lemma SaysEach(ms: seq<Member>, pairs: seq<(seq<byte>, Item)>, order: seq<nat>, floats: FloatForms)
    requires (forall k :: 0 <= k < |order| ==> order[k] < |pairs|) && |ms| == |order|
    requires forall k :: 0 <= k < |ms| ==> SaysPair(ms[k], pairs, order[k], floats)
    ensures SaysPairs(ms, pairs, order, floats)
  {
    hide SaysPair;
  }

  lemma SaysLong(ms: seq<Member>, pairs: seq<(seq<byte>, Item)>, order: seq<nat>, floats: FloatForms)
    requires (forall k :: 0 <= k < |order| ==> order[k] < |pairs|) && SaysPairs(ms, pairs, order, floats)
    ensures |ms| == |order|
  {
    hide SaysPair;
  }

  lemma SaysMore(before: seq<Member>, m: Member, pairs: seq<(seq<byte>, Item)>, order: seq<nat>, floats: FloatForms)
    requires order != [] && (forall k :: 0 <= k < |order| ==> order[k] < |pairs|)
    requires SaysPairs(before, pairs, order[..|order| - 1], floats) && SaysPair(m, pairs, order[|order| - 1], floats)
    ensures SaysPairs(before + [m], pairs, order, floats) && |before| == |order| - 1
  {
    hide SaysPair, SaysPairs;
    SaysLong(before, pairs, order[..|order| - 1], floats);
    forall k | 0 <= k < |order| ensures SaysPair((before + [m])[k], pairs, order[k], floats) {
      SaysNext(before, m, pairs, order, floats, k);
    }
    SaysEach(before + [m], pairs, order, floats);
  }

  lemma SaysNext(before: seq<Member>, m: Member, pairs: seq<(seq<byte>, Item)>, order: seq<nat>, floats: FloatForms,
                 k: nat)
    requires k < |order| == |before| + 1 && (forall k :: 0 <= k < |order| ==> order[k] < |pairs|)
    requires SaysPairs(before, pairs, order[..|before|], floats) && SaysPair(m, pairs, order[|before|], floats)
    ensures SaysPair((before + [m])[k], pairs, order[k], floats)
  {
    hide SaysPair, SaysPairs;
    if k < |before| {
      SaysAt(before, pairs, order, floats, |before|, k);
    }
  }

  lemma TextsMore(before: seq<Member>, m: Member)
    ensures MemberTexts(before + [m]) == MemberTexts(before) + [MemberText(m)]
    ensures |MemberTexts(before)| == |before|
  {
    hide MemberText;
  }

  lemma {:induction false} PairDocument(pairs: seq<(seq<byte>, Item)>, i: nat, n: nat, f: Forms, floats: FloatForms)
    returns (m: Member)
    requires i < |pairs| && PairOf(pairs, i, n, f).Some? && Spelling(f, floats) && ExponentsPair(pairs, i)
    ensures SaysPair(m, pairs, i, floats) && PairOf(pairs, i, n, f).value == Comma(n) + MemberText(m)
    decreases pairs, 0, 0
  {
    hide JsonOf, Spelling, TextOf, Says, Exponents, StringTail, StringValue, Comma;
    var p := pairs[i];
    assert (pairs decreases to p);
    assert (p decreases to p.1);
    var ps := QuotedPieces(p.0, f, floats);
    var j := JsonDocument(p.1, f, floats);
    m := Member([], ps, [], Element([], j, []));
    assert MemberText(m) == f.quote(p.0).value + ([0x3a] + TextOf(j)) by {
      MemberPlain(ps, j, f.quote(p.0).value);
    }
  }

  lemma QuotedPieces(s: seq<byte>, f: Forms, floats: FloatForms) returns (ps: seq<piece>)
    requires f.quote(s).Some? && Spelling(f, floats)
    ensures f.quote(s).value == [0x22] + StringTail(ps) && StringValue(ps) == s
  {
    hide StringTail, StringValue;
    ps :| QuotedAs(f.quote(s).value, s, ps);
  }

  lemma MemberPlain(ps: seq<piece>, j: Json, quoted: seq<byte>)
    requires quoted == [0x22] + StringTail(ps)
    ensures MemberText(Member([], ps, [], Element([], j, []))) == quoted + ([0x3a] + TextOf(j))
  {
    hide TextOf, StringTail;
  }
}
