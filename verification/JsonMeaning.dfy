/**
 The transcoder preserves meaning: what it appends for a JSON document is read back by the CBOR reader as
 the value the document writes, and the exact condition under which that holds.
 */
module JsonMeaning {
  import opened Wrappers
  import opened Bytes
  import opened Utf8
  import opened CborItem
  import opened CborEncode
  import opened CborDoc
  import opened CborRoundTrip
  import opened NumericText
  import opened JsonText
  import opened JsonParse
  import opened JsonTranscode

  // ---- what a JSON document means ------------------------------------------------------------------

  /** A number is its integer, or its digits as an integer with the exponent the digits after the point leave. */
  function NumeralItem(n: numeral): Item {
    if IsInteger(n) then IntegerItem(IntVal(MantissaText(n)))
       else Dec(IntVal(MantissaText(n)), ExponentOf(n) - |n.frac|)
  }

  function JsonItem(j: Json): Item
    decreases j, 0
  {
    match j
    case JNull => Null
    case JBool(b) => Bool(b)
    case JNumber(num) => NumeralItem(num)
    case JString(str) => Text(StringValue(str))
    case JArray(_, items) => Arr(JsonItems(items))
    case JObject(_, members) => Map(Zip(KeysOf(members), MemberItems(members)))
  }

  function JsonItems(items: seq<Element>): (xs: seq<Item>)
    ensures |xs| == |items|
    decreases items, 0
  {
    if items == [] then [] else [JsonItem(items[0].value)] + JsonItems(items[1..])
  }

  function MemberItems(members: seq<Member>): (xs: seq<Item>)
    ensures |xs| == |members|
    decreases members, 0
  {
    if members == [] then [] else [JsonItem(members[0].elem.value)] + MemberItems(members[1..])
  }

  function KeysOf(members: seq<Member>): (keys: seq<seq<byte>>)
    ensures |keys| == |members| && forall i :: 0 <= i < |keys| ==> keys[i] == StringValue(members[i].key)
  {
    seq(|members|, i requires 0 <= i < |members| => StringValue(members[i].key))
  }

  /** What the reader asks of a document: its nesting limit, different keys, and exponents of 64 bits. */
  ghost predicate Readable(j: Json, depth: nat)
    decreases j, 0
  {
    match j
    case JNumber(n) => NumeralReadable(n, depth)
    case JArray(_, items) => depth < MAX_DEPTH && ReadableAll(items, depth + 1)
    case JObject(_, members) => depth < MAX_DEPTH && Distinct(KeysOf(members)) && ReadableMembers(members, depth + 1)
    case _ => true
  }

  ghost predicate NumeralReadable(n: numeral, depth: nat) {
    var big := IsBig(IntVal(MantissaText(n)));
    if IsInteger(n) then big ==> depth < MAX_DEPTH
    else depth + 1 < MAX_DEPTH && (big ==> depth + 2 < MAX_DEPTH) && IsInt64(ExponentOf(n) - |n.frac|)
  }

  ghost predicate ReadableAll(items: seq<Element>, depth: nat)
    decreases items, 0
  {
    items == [] || (Readable(items[0].value, depth) && ReadableAll(items[1..], depth))
  }

  ghost predicate ReadableMembers(members: seq<Member>, depth: nat)
    decreases members, 0
  {
    members == [] || (Readable(members[0].elem.value, depth) && ReadableMembers(members[1..], depth))
  }

  // ---- the document that is written ------------------------------------------------------------------

  function DocOf(j: Json): Doc
    decreases j, 0
  {
    match j
    case JNull => DNull
    case JBool(b) => DBool(b)
    case JNumber(n) =>
      if IsInteger(n) then DInteger(MantissaText(n)) else DDecimal(MantissaText(n), Wrap64(ExponentOf(n) - |n.frac|))
    case JString(str) => DText(StringValue(str))
    case JArray(_, items) => DArr(true, DocsOf(items))
    case JObject(_, members) => DMap(true, KeysOf(members), MemberDocs(members))
  }

  function DocsOf(items: seq<Element>): (ds: seq<Doc>)
    ensures |ds| == |items|
    decreases items, 0
  {
    if items == [] then [] else [DocOf(items[0].value)] + DocsOf(items[1..])
  }

  function MemberDocs(members: seq<Member>): (ds: seq<Doc>)
    ensures |ds| == |members|
    decreases members, 0
  {
    if members == [] then [] else [DocOf(members[0].elem.value)] + MemberDocs(members[1..])
  }

  lemma KeysCons(members: seq<Member>)
    requires members != []
    ensures KeysOf(members)[0] == StringValue(members[0].key) && KeysOf(members)[1..] == KeysOf(members[1..])
  {
  }

  /** The bytes appended are those of the document, written with indefinite lengths. */
  lemma {:induction false} DocBytes(j: Json, defined: set<nat>)
    requires Typed(DocOf(j))
    ensures Encode(DocOf(j), defined) == Out(JsonBytes(j), defined)
    decreases j, 1
  {
    hide IntegerBytes, DecimalBytes, TextBytes, StringValue, MantissaText, EncodeAll, EncodeFields, IntVal, Wrap64;
    match j
    case JArray(_, items) => DocsBytes(items, defined);
    case JObject(_, members) => MemberDocsBytes(members, defined);
    case _ =>
  }

  lemma {:induction false} DocsBytes(items: seq<Element>, defined: set<nat>)
    requires TypedAll(DocsOf(items))
    ensures EncodeAll(DocsOf(items), defined) == Out(ItemsBytes(items), defined)
    decreases items, 1
  {
    hide Encode, JsonBytes, DocOf, Typed;
    if items != [] {
      assert DocsOf(items)[1..] == DocsOf(items[1..]);
      DocBytes(items[0].value, defined);
      DocsBytes(items[1..], defined);
    }
  }

  lemma {:induction false} MemberDocsBytes(members: seq<Member>, defined: set<nat>)
    requires TypedAll(MemberDocs(members))
    ensures EncodeFields(KeysOf(members), MemberDocs(members), defined) == Out(MembersBytes(members), defined)
    decreases members, 1
  {
    hide Encode, JsonBytes, DocOf, Typed, TextBytes, StringValue, KeysOf;
    if members != [] {
      KeysCons(members);
      assert MemberDocs(members)[1..] == MemberDocs(members[1..]);
      DocBytes(members[0].elem.value, defined);
      MemberDocsBytes(members[1..], defined);
    }
  }

  lemma {:induction false} NoStructures(j: Json)
    ensures Planned(DocOf(j), [])
    decreases j, 1
  {
    match j
    case JArray(_, items) => NoStructuresAll(items);
    case JObject(_, members) => NoStructuresMembers(members);
    case _ =>
  }

  lemma {:induction false} NoStructuresAll(items: seq<Element>)
    ensures PlannedAll(DocsOf(items), [])
    decreases items, 1
  {
    hide Planned, DocOf;
    if items != [] {
      assert DocsOf(items)[1..] == DocsOf(items[1..]);
      NoStructures(items[0].value);
      NoStructuresAll(items[1..]);
    }
  }

  lemma {:induction false} NoStructuresMembers(members: seq<Member>)
    ensures PlannedAll(MemberDocs(members), [])
    decreases members, 1
  {
    hide Planned, DocOf;
    if members != [] {
      assert MemberDocs(members)[1..] == MemberDocs(members[1..]);
      NoStructures(members[0].elem.value);
      NoStructuresMembers(members[1..]);
    }
  }

  // ---- lengths --------------------------------------------------------------------------------------------

  /** A string's bytes are no more than its text. */
  lemma {:induction false} ResolveLength(ps: seq<piece>)
    ensures |Resolve(ps)| < |StringTail(ps)|
  {
    hide HexVal;
    if StartsPair(ps) {
      ResolveLength(ps[2..]);
      assert ps[1..][1..] == ps[2..];
      assert |StringTail(ps)| == 12 + |StringTail(ps[2..])|;
    } else if ps != [] {
      ResolveLength(ps[1..]);
      CodeLength(ps[0]);
    }
  }

  lemma CodeLength(p: piece)
    ensures p.Code? ==> |RuneBytes(HexVal(p.hex))| <= 4 && |PieceText(p)| == 6
  {
  }

  lemma StringLength(ps: seq<piece>)
    ensures |StringValue(ps)| <= 3 * |StringTail(ps)| && ValidUtf8(StringValue(ps))
  {
    hide Resolve, Repair, ValidUtf8;
    ResolveLength(ps);
    RepairValid(Resolve(ps));
  }

  /** A document a slice can hold, even repaired, writes one whose parts slices can hold. */
  lemma {:induction false} DocTyped(j: Json)
    requires 3 * |TextOf(j)| < TWO63
    ensures Typed(DocOf(j))
    decreases j, 1
  {
    hide StringValue, StringTail, ItemsText, MembersText, Wrap64;
    match j
    case JString(str) => StringLength(str);
    case JArray(_, items) => if items != [] { DocsTyped(items); }
    case JObject(_, members) => if members != [] { MemberDocsTyped(members); }
    case _ =>
  }

  lemma {:induction false} DocsTyped(items: seq<Element>)
    requires items != [] && 3 * |ItemsText(items)| < TWO63
    ensures TypedAll(DocsOf(items)) && |items| <= |ItemsText(items)|
    decreases items, 1
  {
    hide TextOf, DocOf, Typed;
    DocTyped(items[0].value);
    assert DocsOf(items)[1..] == DocsOf(items[1..]);
    if |items| > 1 {
      DocsTyped(items[1..]);
    }
  }

  lemma {:induction false} MemberDocsTyped(members: seq<Member>)
    requires members != [] && 3 * |MembersText(members)| < TWO63
    ensures TypedAll(MemberDocs(members)) && TypedFields(KeysOf(members), MemberDocs(members))
            && |members| <= |MembersText(members)|
    decreases members, 1
  {
    hide TextOf, DocOf, Typed, StringTail, StringValue;
    DocTyped(members[0].elem.value);
    StringLength(members[0].key);
    assert MemberDocs(members)[1..] == MemberDocs(members[1..]);
    if |members| > 1 {
      MemberDocsTyped(members[1..]);
      KeysCons(members);
      forall i | 0 <= i < |members| ensures |KeysOf(members)[i]| < TWO63 {
        assert i > 0 ==> KeysOf(members)[i] == KeysOf(members[1..])[i - 1];
      }
    }
  }

  // ---- the meaning ---------------------------------------------------------------------------------------------

  lemma WrapExact(n: int)
    ensures Wrap64(n) == n <==> IsInt64(n)
  {
  }

  lemma {:induction false} DocMeaning(j: Json, depth: nat)
    requires Typed(DocOf(j))
    ensures Fits(DocOf(j), depth) && Meaning(DocOf(j)) == JsonItem(j) <==> Readable(j, depth)
    decreases j, 1
  {
    hide StringValue, Wrap64, MantissaText, ValidUtf8, KeysOf, IntVal, ExponentOf;
    match j
    case JNumber(n) => WrapExact(ExponentOf(n) - |n.frac|);
    case JString(str) => StringLength(str);
    case JArray(_, items) => DocsMeaning(items, depth + 1);
    case JObject(_, members) =>
      MemberDocsMeaning(members, depth + 1);
      KeysValid(members);
      ZipSame(KeysOf(members), MeaningAll(MemberDocs(members)), MemberItems(members));
    case _ =>
  }

  lemma ZipSame(names: seq<seq<byte>>, a: seq<Item>, b: seq<Item>)
    requires |names| == |a| == |b|
    ensures Zip(names, a) == Zip(names, b) <==> a == b
  {
    if Zip(names, a) == Zip(names, b) {
      forall i | 0 <= i < |a| ensures a[i] == b[i] {
        assert Zip(names, a)[i] == (names[i], a[i]) && Zip(names, b)[i] == (names[i], b[i]);
      }
    }
  }

  lemma KeysValid(members: seq<Member>)
    ensures forall i :: 0 <= i < |KeysOf(members)| ==> ValidUtf8(KeysOf(members)[i])
  {
    hide StringValue, ValidUtf8;
    forall i | 0 <= i < |members| ensures ValidUtf8(KeysOf(members)[i]) {
      StringLength(members[i].key);
    }
  }

  lemma {:induction false} DocsMeaning(items: seq<Element>, depth: nat)
    requires TypedAll(DocsOf(items))
    ensures FitsAll(DocsOf(items), depth) && MeaningAll(DocsOf(items)) == JsonItems(items)
            <==> ReadableAll(items, depth)
    decreases items, 1
  {
    hide Fits, Meaning, JsonItem, Readable, DocOf, Typed;
    if items != [] {
      assert DocsOf(items)[1..] == DocsOf(items[1..]);
      DocMeaning(items[0].value, depth);
      DocsMeaning(items[1..], depth);
      ConsSame(Meaning(DocOf(items[0].value)), MeaningAll(DocsOf(items[1..])), JsonItem(items[0].value),
               JsonItems(items[1..]));
    }
  }

  lemma ConsSame(x: Item, xs: seq<Item>, y: Item, ys: seq<Item>)
    ensures [x] + xs == [y] + ys <==> x == y && xs == ys
  {
    assert ([x] + xs)[1..] == xs && ([y] + ys)[1..] == ys && ([x] + xs)[0] == x && ([y] + ys)[0] == y;
  }

  lemma {:induction false} MemberDocsMeaning(members: seq<Member>, depth: nat)
    requires TypedAll(MemberDocs(members))
    ensures FitsAll(MemberDocs(members), depth) && MeaningAll(MemberDocs(members)) == MemberItems(members)
            <==> ReadableMembers(members, depth)
    decreases members, 1
  {
    hide Fits, Meaning, JsonItem, Readable, DocOf, Typed;
    if members != [] {
      assert MemberDocs(members)[1..] == MemberDocs(members[1..]);
      DocMeaning(members[0].elem.value, depth);
      MemberDocsMeaning(members[1..], depth);
      ConsSame(Meaning(DocOf(members[0].elem.value)), MeaningAll(MemberDocs(members[1..])),
               JsonItem(members[0].elem.value), MemberItems(members[1..]));
    }
  }

  /** The CBOR of a document reads back as the document's value if and only if the document is one the reader takes. */
  lemma TranscodeRead(src: seq<byte>, isTime: seq<byte> -> bool)
    requires Document(src).Got? && 3 * |src| < TWO63
    ensures var j := Document(src).value.value;
            var r := ReadDocument(JsonBytes(j), isTime);
            r.Done? && r.value == JsonItem(j) <==> Readable(j, 0)
  {
    hide ReadDocument, Encode, Meaning, Fits, DocOf, JsonBytes, TextOf, Typed, Planned, Spaced, JsonItem, Readable;
    var e := Document(src).value;
    var j := e.value;
    DocumentIff(src, e);
    DocTyped(j);
    NoStructures(j);
    DocBytes(j, {});
    DocumentRead(DocOf(j), [], [], isTime);
    assert JsonBytes(j) + [] == JsonBytes(j);
    DocMeaning(j, 0);
  }

  /** A fraction under the smallest exponent: the subtraction leaves 64 bits and the value read back is another. */
  lemma ExponentWraps() returns (n: numeral)
    ensures ExponentOf(n) == -TWO63 && n.frac == [0x31]
    ensures NumeralBytes(n) == DecimalBytes(1, TWO63 - 1) && NumeralItem(n) == Dec(1, -TWO63 - 1)
  {
    hide DecimalBytes, ExpVal, IntVal, NatText, IsExp;
    var e := SmallestExponent();
    n := Numeral(false, [0x30], [0x31], [0x65], e);
    OneMantissa(n);
    assert Wrap64(-TWO63 - 1) == TWO63 - 1;
  }

  lemma SmallestExponent() returns (e: seq<byte>)
    ensures IsExp(e) && ExpVal(e) == -TWO63
  {
    hide NatText, DigitsVal;
    e := [MINUS] + NatText(TWO63);
    NatTextVal(TWO63);
    assert e[..1] == [MINUS] && e[1..] == NatText(TWO63);
  }

  lemma OneMantissa(n: numeral)
    requires !n.neg && n.whole == [0x30] && n.frac == [0x31]
    ensures IntVal(MantissaText(n)) == 1
  {
    var m := MantissaText(n);
    assert m == [0x30, 0x31];
    DigitsValLeadingZero(m);
    var one := m[1..];
    assert one == [0x31] && one[..0] == [];
    assert DigitsVal(one) == DigitsVal(one[..0]) * 10 + 1;
  }

  // ---- numbers ---------------------------------------------------------------------------------------------------

  /**
   A number means its digits, read as one integer with the number's sign, at the power of ten that its exponent leaves
   them; without a point or an exponent it is that integer.
   */
  lemma NumeralMeans(n: numeral, expSign: seq<byte>, x: seq<byte>, e: int)
    requires n.exp == expSign + x && AllDigits(x)
    requires if n.mark == [] then e == 0 else x != [] && SignedDigits(expSign, x, e)
    ensures var m := DigitsVal(n.whole + n.frac);
            var v := if n.neg then 0 - m else m;
            JsonItem(JNumber(n)) == if n.frac == [] && n.mark == [] then IntegerItem(v) else Dec(v, e - |n.frac|)
  {
    hide DigitsVal;
    var t := MantissaText(n);
    if n.neg {
      assert t[1..] == n.whole + n.frac;
    } else {
      assert t == n.whole + n.frac;
    }
    if n.mark != [] {
      ExponentMeans(n.exp, expSign, x, e);
    }
  }

  lemma ExponentMeans(exp: seq<byte>, sign: seq<byte>, x: seq<byte>, e: int)
    requires exp == sign + x && x != [] && AllDigits(x) && SignedDigits(sign, x, e)
    ensures AllDigits(ExpDigits(exp)) && ExpVal(exp) == e
  {
    hide DigitsVal;
    if sign == [] {
      assert exp == x && IsDigit(exp[0]) && exp[..1] == [exp[0]];
    } else {
      assert exp[1..] == x && exp[..1] == sign;
    }
  }

  // ---- strings ----------------------------------------------------------------------------------------------------

  /** Section 7 of RFC 8259: the letter after a backslash, and the character the two stand for. */
  const ESCAPES: map<byte, nat> := map[
    0x22 := 0x22, 0x5c := 0x5c, 0x2f := 0x2f, 0x62 := 0x08, 0x66 := 0x0c, 0x6e := 0x0a, 0x72 := 0x0d, 0x74 := 0x09
  ]

  const LOWER_HEX: seq<byte> :=
    [0x30, 0x31, 0x32, 0x33, 0x34, 0x35, 0x36, 0x37, 0x38, 0x39, 0x61, 0x62, 0x63, 0x64, 0x65, 0x66]

  const UPPER_HEX: seq<byte> :=
    [0x30, 0x31, 0x32, 0x33, 0x34, 0x35, 0x36, 0x37, 0x38, 0x39, 0x41, 0x42, 0x43, 0x44, 0x45, 0x46]

  function HexLetter(v: nat, upper: bool): byte
    requires v < 16
  {
    if upper then UPPER_HEX[v] else LOWER_HEX[v]
  }

  /** Four hexadecimal digits, each in either case. */
  datatype Case = Case(a: bool, b: bool, c: bool, d: bool)

  function HexOf(n: nat, u: Case): seq<byte>
    requires n < 0x10000
  {
    [HexLetter(n / 0x1000, u.a), HexLetter(n / 0x100 % 16, u.b), HexLetter(n / 16 % 16, u.c), HexLetter(n % 16, u.d)]
  }

  /**
   The ways to write a character in a string: itself, a short escape, four digits, or a surrogate pair; and half a
   surrogate pair, which stands for no character.
   */
  datatype Spelling =
    | Plain(r: nat)
    | Short(e: byte)
    | Hex(r: nat, u: Case)
    | Surrogates(r: nat, high: Case, low: Case)
    | Half(n: nat, u: Case)

  ghost predicate SpellingOk(c: Spelling) {
    match c
    case Plain(r) => IsScalar(r) && r >= 0x20 && r != 0x22 && r != 0x5c
    case Short(e) => e in ESCAPES
    case Hex(r, _) => r < 0x10000 && IsScalar(r)
    case Surrogates(r, _, _) => 0x10000 <= r < 0x110000
    case Half(n, _) => 0xd800 <= n < 0xe000
  }

  /** No two halves stand next to each other that are a pair. */
  ghost predicate SpellingsOk(cs: seq<Spelling>) {
    && (forall i :: 0 <= i < |cs| ==> SpellingOk(cs[i]))
    && forall i :: 0 < i < |cs| && cs[i - 1].Half? && cs[i].Half? ==> !(cs[i - 1].n < 0xdc00 <= cs[i].n)
  }

  /** The character written: section 7 of RFC 8259; half a pair is written as U+FFFD. */
  function Character(c: Spelling): nat
    requires SpellingOk(c)
  {
    match c
    case Plain(r) => r
    case Short(e) => ESCAPES[e]
    case Hex(r, _) => r
    case Surrogates(r, _, _) => r
    case Half(_, _) => 0xfffd
  }

  function CodeOf(n: nat, u: Case): (p: piece)
    requires n < 0x10000
    ensures p == Code(HexOf(n, u))
  {
    HexDigits(n, u);
    Code(HexOf(n, u))
  }

  /** Surrogates by section 2.1 of RFC 2781. */
  function Spelled(c: Spelling): seq<piece>
    requires SpellingOk(c)
  {
    match c
    case Plain(r) => RawPieces(r)
    case Short(e) => [Esc(e)]
    case Hex(r, u) => [CodeOf(r, u)]
    case Surrogates(r, high, low) =>
      [CodeOf(0xd800 + (r - 0x10000) / 0x400, high), CodeOf(0xdc00 + (r - 0x10000) % 0x400, low)]
    case Half(n, u) => [CodeOf(n, u)]
  }

  lemma OneHex(v: nat, upper: bool)
    requires v < 16
    ensures IsHex(HexLetter(v, upper)) && HexDigit(HexLetter(v, upper)) == v
  {
  }

  lemma HexDigits(n: nat, u: Case)
    requires n < 0x10000
    ensures AllHex(HexOf(n, u)) && HexVal(HexOf(n, u)) == n
  {
    hide HexLetter, HexDigit, IsHex, HexVal;
    var a, b, c, d := n / 0x1000, n / 0x100 % 16, n / 16 % 16, n % 16;
    OneHex(a, u.a);
    OneHex(b, u.b);
    OneHex(c, u.c);
    OneHex(d, u.d);
    HexFour(HexLetter(a, u.a), HexLetter(b, u.b), HexLetter(c, u.c), HexLetter(d, u.d));
    Nibbles(n);
  }

  lemma Nibbles(n: nat)
    ensures ((n / 0x1000 * 16 + n / 0x100 % 16) * 16 + n / 16 % 16) * 16 + n % 16 == n
  {
    assert n / 0x100 == n / 16 / 16 && n / 0x1000 == n / 16 / 16 / 16;
  }

  lemma HexFour(a: byte, b: byte, c: byte, d: byte)
    requires IsHex(a) && IsHex(b) && IsHex(c) && IsHex(d)
    ensures HexVal([a, b, c, d]) == ((HexDigit(a) * 16 + HexDigit(b)) * 16 + HexDigit(c)) * 16 + HexDigit(d)
  {
    hide HexDigit, IsHex;
    assert [a][..0] == [] && [a, b][..1] == [a] && [a, b, c][..2] == [a, b] && [a, b, c, d][..3] == [a, b, c];
    assert HexVal([a]) == HexDigit(a);
    assert HexVal([a, b]) == HexDigit(a) * 16 + HexDigit(b);
    assert HexVal([a, b, c]) == (HexDigit(a) * 16 + HexDigit(b)) * 16 + HexDigit(c);
  }

  function RawPieces(r: nat): (ps: seq<piece>)
    requires IsScalar(r) && r >= 0x20 && r != 0x22 && r != 0x5c
    ensures |ps| == |RuneBytes(r)| && forall i :: 0 <= i < |ps| ==> ps[i] == Raw(RuneBytes(r)[i])
  {
    seq(|RuneBytes(r)|, i requires 0 <= i < |RuneBytes(r)| => RawByte(r, i); Raw(RuneBytes(r)[i]))
  }

  lemma RawByte(r: nat, i: nat)
    requires IsScalar(r) && r >= 0x20 && r != 0x22 && r != 0x5c && i < |RuneBytes(r)|
    ensures IsRaw(RuneBytes(r)[i])
  {
  }

  function SpelledAll(cs: seq<Spelling>): seq<piece>
    requires forall i :: 0 <= i < |cs| ==> SpellingOk(cs[i])
  {
    if cs == [] then [] else Spelled(cs[0]) + SpelledAll(cs[1..])
  }

  /** The UTF-8 text of a list of characters. */
  function Utf8Of(cs: seq<Spelling>): seq<byte>
    requires forall i :: 0 <= i < |cs| ==> SpellingOk(cs[i])
  {
    if cs == [] then [] else RuneBytes(Character(cs[0])) + Utf8Of(cs[1..])
  }

  /**
   However its characters are written, a string stands for their UTF-8 text, with U+FFFD for every half of a pair that
   stands alone.
   */
  lemma {:induction false} SpelledString(cs: seq<Spelling>)
    requires SpellingsOk(cs)
    ensures StringValue(SpelledAll(cs)) == Utf8Of(cs)
  {
    hide Resolve, Repair, ValidUtf8, Utf8Of, SpelledAll;
    SpelledResolve(cs);
    Utf8Valid(cs);
    RepairValid(Utf8Of(cs));
  }

  lemma {:induction false} SpelledResolve(cs: seq<Spelling>)
    requires SpellingsOk(cs)
    ensures Resolve(SpelledAll(cs)) == Utf8Of(cs)
  {
    hide SpellingOk, Spelled, Character, RuneBytes, Resolve;
    if cs != [] {
      SpelledResolve(cs[1..]);
      if cs[0].Half? && cs[0].n < 0xdc00 {
        NoLowNext(cs[1..]);
      }
      FirstSpelled(cs[0], SpelledAll(cs[1..]));
    } else {
      assert Resolve([]) == [] by {
        NothingResolved();
      }
    }
  }

  lemma NothingResolved()
    ensures Resolve([]) == []
  {
  }

  /** The pieces go on with a low half. */
  predicate StartsLow(ps: seq<piece>) {
    ps != [] && ps[0].Code? && IsLow(HexVal(ps[0].hex))
  }

  lemma NoLowNext(cs: seq<Spelling>)
    requires (forall i :: 0 <= i < |cs| ==> SpellingOk(cs[i])) && (cs != [] && cs[0].Half? ==> cs[0].n < 0xdc00)
    ensures !StartsLow(SpelledAll(cs))
  {
    hide Spelled, SpellingOk, IsLow, HexVal;
    if cs != [] {
      FirstPiece(cs[0]);
      assert SpelledAll(cs)[0] == Spelled(cs[0])[0];
    }
  }

  lemma FirstPiece(c: Spelling)
    requires SpellingOk(c)
    ensures Spelled(c) != [] && (StartsLow(Spelled(c)) ==> c.Half? && c.n >= 0xdc00)
  {
    hide HexOf, HexVal, RuneBytes, AllHex;
    match c
    case Plain(r) =>
    case Short(e) =>
    case Hex(r, u) => HexDigits(r, u);
    case Surrogates(r, high, low) => HexDigits(0xd800 + (r - 0x10000) / 0x400, high);
    case Half(m, u) => HexDigits(m, u);
  }

  lemma FirstSpelled(c: Spelling, rest: seq<piece>)
    requires SpellingOk(c) && (c.Half? && c.n < 0xdc00 ==> !StartsLow(rest))
    ensures Resolve(Spelled(c) + rest) == RuneBytes(Character(c)) + Resolve(rest)
  {
    hide HexVal, RuneBytes, AllHex, HexOf;
    var ps := Spelled(c) + rest;
    match c
    case Plain(r) => RawResolve(RuneBytes(r), RawPieces(r), rest);
    case Short(e) =>
      assert ps[1..] == rest;
      ShortByte(e);
    case Hex(r, u) =>
      assert ps[1..] == rest;
      HexDigits(r, u);
    case Surrogates(r, high, low) =>
      assert ps[2..] == rest;
      HexDigits(0xd800 + (r - 0x10000) / 0x400, high);
      HexDigits(0xdc00 + (r - 0x10000) % 0x400, low);
    case Half(n, u) =>
      assert ps[1..] == rest;
      HexDigits(n, u);
      NotScalar(n);
  }

  lemma NotScalar(n: nat)
    requires 0xd800 <= n < 0xe000
    ensures RuneBytes(n) == RuneBytes(0xfffd)
  {
  }

  lemma ShortByte(e: byte)
    requires e in ESCAPES
    ensures IsEscape(e) && RuneBytes(ESCAPES[e]) == [Escaped(e)]
  {
  }

  lemma {:induction false} RawResolve(bytes: seq<byte>, ps: seq<piece>, rest: seq<piece>)
    requires |ps| == |bytes| && forall i :: 0 <= i < |ps| ==> ps[i] == Raw(bytes[i])
    ensures Resolve(ps + rest) == bytes + Resolve(rest)
  {
    hide HexVal, RuneBytes, PairRune, Escaped;
    if ps == [] {
      assert ps + rest == rest && bytes + Resolve(rest) == Resolve(rest);
    } else {
      RawResolve(bytes[1..], ps[1..], rest);
      assert (ps + rest)[1..] == ps[1..] + rest;
      assert [bytes[0]] + (bytes[1..] + Resolve(rest)) == bytes + Resolve(rest);
    }
  }

  lemma {:induction false} Utf8Valid(cs: seq<Spelling>)
    requires forall i :: 0 <= i < |cs| ==> SpellingOk(cs[i])
    ensures ValidUtf8(Utf8Of(cs))
  {
    hide SpellingOk, Character, RuneBytes, RuneLen;
    if cs != [] {
      Utf8Valid(cs[1..]);
      ScalarCharacter(cs[0]);
      RuneRead(Character(cs[0]), Utf8Of(cs[1..]));
      ValidCons(RuneBytes(Character(cs[0])), Utf8Of(cs[1..]));
    }
  }

  lemma ScalarCharacter(c: Spelling)
    requires SpellingOk(c)
    ensures IsScalar(Character(c))
  {
  }
}
