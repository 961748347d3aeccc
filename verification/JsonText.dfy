/**
 JSON text as a grammar (sections 2 to 7 of RFC 8259): a syntax tree that keeps every byte of the text,
 white space and spelling included, and the text it stands for.
 */
module JsonText {
  import opened Bytes
  import opened Utf8
  import opened Numeric

  const QUOTE: byte := 0x22
  const BACKSLASH: byte := 0x5c
  const LETTER_U: byte := 0x75
  const COMMA: byte := 0x2c
  const COLON: byte := 0x3a
  const OPEN_ARRAY: byte := 0x5b
  const CLOSE_ARRAY: byte := 0x5d
  const OPEN_OBJECT: byte := 0x7b
  const CLOSE_OBJECT: byte := 0x7d
  const TRUE: seq<byte> := [0x74, 0x72, 0x75, 0x65]
  const FALSE: seq<byte> := [0x66, 0x61, 0x6c, 0x73, 0x65]
  const NULL: seq<byte> := [0x6e, 0x75, 0x6c, 0x6c]

  const MAX_JSON_DEPTH: nat := 1000

  // ---- white space ---------------------------------------------------------------------------

  predicate IsSpace(c: byte) {
    c == 0x20 || c == 0x09 || c == 0x0a || c == 0x0d
  }

  ghost predicate AllSpace(s: seq<byte>) {
    forall i :: 0 <= i < |s| ==> IsSpace(s[i])
  }

  // ---- strings ---------------------------------------------------------------------------------

  /** A byte of a string written as it is, after a backslash, or as four hexadecimal digits. */
  datatype Piece = Raw(c: byte) | Esc(e: byte) | Code(hex: seq<byte>)

  ghost predicate PieceOk(p: Piece) {
    match p
    case Raw(c) => IsRaw(c)
    case Esc(e) => IsEscape(e)
    case Code(hex) => |hex| == 4 && AllHex(hex)
  }

  type piece = p: Piece | PieceOk(p) ghost witness Raw(0x41)

  predicate IsRaw(c: byte) {
    c >= 0x20 && c != QUOTE && c != BACKSLASH
  }

  predicate IsEscape(e: byte) {
    e == QUOTE || e == BACKSLASH || e == 0x2f || e == 0x62 || e == 0x66 || e == 0x6e || e == 0x72 || e == 0x74
  }

  /** The byte an escape stands for. */
  function Escaped(e: byte): byte {
    if e == 0x62 then 8
    else if e == 0x66 then 12
    else if e == 0x6e then 10
    else if e == 0x72 then 13
    else if e == 0x74 then 9
    else e
  }

  predicate IsHex(c: byte) {
    IsDigit(c) || 0x61 <= c <= 0x66 || 0x41 <= c <= 0x46
  }

  predicate AllHex(s: seq<byte>) {
    forall i :: 0 <= i < |s| ==> IsHex(s[i])
  }

  function HexDigit(c: byte): (v: nat)
    requires IsHex(c)
    ensures v < 16
  {
    if c <= 0x39 then c - 0x30 else if c <= 0x46 then c - 0x41 + 10 else c - 0x61 + 10
  }

  function HexVal(s: seq<byte>): nat
    requires AllHex(s)
  {
    if s == [] then 0 else HexVal(s[..|s| - 1]) * 16 + HexDigit(s[|s| - 1])
  }

  function PieceText(p: Piece): seq<byte> {
    match p
    case Raw(c) => [c]
    case Esc(e) => [BACKSLASH, e]
    case Code(hex) => [BACKSLASH, LETTER_U] + hex
  }

  /** The text of a string after its opening quote. */
  function StringTail(ps: seq<Piece>): seq<byte> {
    if ps == [] then [QUOTE] else PieceText(ps[0]) + StringTail(ps[1..])
  }

  predicate IsHigh(r: nat) {
    0xd800 <= r < 0xdc00
  }

  predicate IsLow(r: nat) {
    0xdc00 <= r < 0xe000
  }

  /** The character a surrogate pair stands for. */
  function PairRune(high: nat, low: nat): nat
    requires IsHigh(high) && IsLow(low)
  {
    (high - 0xd800) * 0x400 + (low - 0xdc00) + 0x10000
  }

  predicate StartsPair(ps: seq<piece>) {
    && |ps| >= 2 && ps[0].Code? && ps[1].Code?
    && IsHigh(HexVal(ps[0].hex)) && IsLow(HexVal(ps[1].hex))
  }

  /** The bytes of a string: escapes resolved, a lone half of a pair replaced. */
  function Resolve(ps: seq<piece>): seq<byte> {
    if ps == [] then []
    else if StartsPair(ps) then RuneBytes(PairRune(HexVal(ps[0].hex), HexVal(ps[1].hex))) + Resolve(ps[2..])
    else
      var first := match ps[0] case Raw(c) => [c] case Esc(e) => [Escaped(e)] case Code(hex) => RuneBytes(HexVal(hex));
      first + Resolve(ps[1..])
  }

  /** The text a string stands for. */
  function StringValue(ps: seq<piece>): seq<byte> {
    Repair(Resolve(ps))
  }

  // ---- numbers ----------------------------------------------------------------------------------

  /** The pieces of a number; no fraction and no exponent are empty. */
  datatype Numeral = Numeral(neg: bool, whole: seq<byte>, frac: seq<byte>, mark: seq<byte>, exp: seq<byte>)

  ghost predicate NumeralOk(n: Numeral) {
    && IsWhole(n.whole) && AllDigits(n.frac)
    && ((n.mark == [] && n.exp == []) || (IsMark(n.mark) && IsExp(n.exp)))
  }

  type numeral = n: Numeral | NumeralOk(n) ghost witness Numeral(false, [0x30], [], [], [])

  ghost predicate IsWhole(s: seq<byte>) {
    s != [] && AllDigits(s) && (s[0] == ZERO ==> |s| == 1)
  }

  predicate IsMark(m: seq<byte>) {
    |m| == 1 && IsExpMark(m[0])
  }

  predicate IsSign(s: seq<byte>) {
    |s| == 1 && (s[0] == PLUS || s[0] == MINUS)
  }

  /** The digits of an exponent, after its sign. */
  function ExpDigits(e: seq<byte>): seq<byte> {
    if e != [] && IsSign(e[..1]) then e[1..] else e
  }

  /** An exponent: digits after an optional sign, within 64 bits. */
  ghost predicate IsExp(e: seq<byte>) {
    AllDigits(ExpDigits(e)) && ExpDigits(e) != [] && IsInt64(ExpVal(e))
  }

  function ExpVal(e: seq<byte>): int
    requires AllDigits(ExpDigits(e))
  {
    if e != [] && e[0] == MINUS then 0 - DigitsVal(ExpDigits(e)) else DigitsVal(ExpDigits(e))
  }

  function FracText(f: seq<byte>): seq<byte> {
    if f == [] then [] else [POINT] + f
  }

  function NumeralText(n: Numeral): seq<byte> {
    SignText(n.neg) + (n.whole + (FracText(n.frac) + (n.mark + n.exp)))
  }

  function SignText(neg: bool): seq<byte> {
    if neg then [MINUS] else []
  }

  // ---- values -------------------------------------------------------------------------------------

  datatype Json =
    | JNull
    | JBool(b: bool)
    | JNumber(num: numeral)
    | JString(str: seq<piece>)
    | JArray(pad: seq<byte>, items: seq<Element>)
    | JObject(pad: seq<byte>, members: seq<Member>)

  /** A value and the white space around it. */
  datatype Element = Element(pre: seq<byte>, value: Json, post: seq<byte>)

  datatype Member = Member(pre: seq<byte>, key: seq<piece>, post: seq<byte>, elem: Element)

  function TextOf(j: Json): (s: seq<byte>)
    decreases j, 0
  {
    match j
    case JNull => NULL
    case JBool(b) => if b then TRUE else FALSE
    case JNumber(num) => NumeralText(num)
    case JString(str) => [QUOTE] + StringTail(str)
    case JArray(pad, items) => [OPEN_ARRAY] + (if items == [] then pad + [CLOSE_ARRAY] else ItemsText(items))
    case JObject(pad, members) => [OPEN_OBJECT] + (if members == [] then pad + [CLOSE_OBJECT] else MembersText(members))
  }

  /** The elements of an array, separated by commas, and its closing bracket. */
  function ItemsText(items: seq<Element>): (s: seq<byte>)
    requires items != []
    decreases items, 0
  {
    items[0].pre + (TextOf(items[0].value) + (items[0].post
    + if |items| == 1 then [CLOSE_ARRAY] else [COMMA] + ItemsText(items[1..])))
  }

  function MembersText(members: seq<Member>): (s: seq<byte>)
    requires members != []
    decreases members, 0
  {
    members[0].pre + ([QUOTE] + (StringTail(members[0].key) + (members[0].post + ([COLON]
    + (members[0].elem.pre + (TextOf(members[0].elem.value) + (members[0].elem.post
    + if |members| == 1 then [CLOSE_OBJECT] else [COMMA] + MembersText(members[1..]))))))))
  }

  // ---- lists ----------------------------------------------------------------------------------------

  /** An element whole, and a member whole, after its opening quote. */
  function ElementText(e: Element): seq<byte> {
    e.pre + (TextOf(e.value) + e.post)
  }

  function MemberText(m: Member): seq<byte> {
    m.pre + ([QUOTE] + (StringTail(m.key) + (m.post + ([COLON] + ElementText(m.elem)))))
  }

  /** Texts with commas between them. */
  function Commas(texts: seq<seq<byte>>): seq<byte> {
    if texts == [] then []
    else if |texts| == 1 then texts[0]
    else Commas(texts[..|texts| - 1]) + [0x2c] + texts[|texts| - 1]
  }

  lemma {:induction false} CommasFirst(texts: seq<seq<byte>>)
    requires |texts| > 1
    ensures Commas(texts) == texts[0] + ([0x2c] + Commas(texts[1..]))
  {
    var init := texts[..|texts| - 1];
    if |texts| == 2 {
      assert init == [texts[0]] && texts[1..] == [texts[1]];
    } else {
      CommasFirst(init);
      assert init[1..] == texts[1..][..|texts| - 2] && texts[1..][|texts| - 2] == texts[|texts| - 1];
    }
  }

  function ElementTexts(items: seq<Element>): (texts: seq<seq<byte>>)
    ensures |texts| == |items| && forall i :: 0 <= i < |items| ==> texts[i] == ElementText(items[i])
  {
    seq(|items|, i requires 0 <= i < |items| => ElementText(items[i]))
  }

  function MemberTexts(members: seq<Member>): (texts: seq<seq<byte>>)
    ensures |texts| == |members| && forall i :: 0 <= i < |members| ==> texts[i] == MemberText(members[i])
  {
    seq(|members|, i requires 0 <= i < |members| => MemberText(members[i]))
  }

  /** An array is its elements between brackets, with commas between them. */
  lemma ArrayText(items: seq<Element>)
    ensures TextOf(JArray([], items)) == [0x5b] + Commas(ElementTexts(items)) + [0x5d]
  {
    hide ItemsText;
    if items != [] {
      ItemsCommas(items);
    }
  }

  lemma {:induction false} ItemsCommas(items: seq<Element>)
    requires items != []
    ensures ItemsText(items) == Commas(ElementTexts(items)) + [0x5d]
  {
    hide TextOf;
    if |items| > 1 {
      CommasFirst(ElementTexts(items));
      assert ElementTexts(items)[1..] == ElementTexts(items[1..]);
      ItemsCommas(items[1..]);
    }
  }

  /** An object is its members between braces, with commas between them. */
  lemma ObjectText(members: seq<Member>)
    ensures TextOf(JObject([], members)) == [0x7b] + Commas(MemberTexts(members)) + [0x7d]
  {
    hide MembersText;
    if members != [] {
      MembersCommas(members);
    }
  }

  lemma {:induction false} MembersCommas(members: seq<Member>)
    requires members != []
    ensures MembersText(members) == Commas(MemberTexts(members)) + [0x7d]
  {
    hide MembersText, MemberText;
    var more := if |members| == 1 then [CLOSE_OBJECT] else [COMMA] + MembersText(members[1..]);
    FirstMember(members, more);
    if |members| > 1 {
      CommasFirst(MemberTexts(members));
      assert MemberTexts(members)[1..] == MemberTexts(members[1..]);
      MembersCommas(members[1..]);
    }
  }

  lemma FirstMember(members: seq<Member>, more: seq<byte>)
    requires members != []
    requires more == if |members| == 1 then [CLOSE_OBJECT] else [COMMA] + MembersText(members[1..])
    ensures MembersText(members) == MemberText(members[0]) + more
  {
    hide TextOf, StringTail, MembersText, MemberText, ElementText;
    var m := members[0];
    MembersUnfold(members, more);
    var elem := m.elem.pre + (TextOf(m.elem.value) + m.elem.post);
    Shift(TextOf(m.elem.value), m.elem.post, more);
    Shift(m.elem.pre, TextOf(m.elem.value) + m.elem.post, more);
    Shift([COLON], elem, more);
    Shift(m.post, [COLON] + elem, more);
    Shift(StringTail(m.key), m.post + ([COLON] + elem), more);
    Shift([QUOTE], StringTail(m.key) + (m.post + ([COLON] + elem)), more);
    Shift(m.pre, [QUOTE] + (StringTail(m.key) + (m.post + ([COLON] + elem))), more);
    MemberParts(m);
  }

  lemma Shift(a: seq<byte>, b: seq<byte>, c: seq<byte>)
    ensures a + (b + c) == (a + b) + c
  {
  }

  lemma MemberParts(m: Member)
    ensures MemberText(m) == m.pre + ([QUOTE] + (StringTail(m.key) + (m.post + ([COLON]
            + (m.elem.pre + (TextOf(m.elem.value) + m.elem.post))))))
  {
    hide TextOf, StringTail;
  }

  lemma MembersUnfold(members: seq<Member>, more: seq<byte>)
    requires members != []
    requires more == if |members| == 1 then [CLOSE_OBJECT] else [COMMA] + MembersText(members[1..])
    ensures var m := members[0];
            MembersText(members) == m.pre + ([QUOTE] + (StringTail(m.key) + (m.post + ([COLON]
            + (m.elem.pre + (TextOf(m.elem.value) + (m.elem.post + more)))))))
  {
    hide TextOf, StringTail;
  }

  /** White space where it belongs, and at most a thousand levels of containers. */
  ghost predicate Nests(j: Json, depth: nat)
    decreases j, 0
  {
    match j
    case JArray(pad, items) => depth < 1000 && AllSpace(pad) && (items != [] ==> pad == [])
    && NestsAll(items, depth + 1)
    case JObject(pad, members) => depth < 1000 && AllSpace(pad) && (members != [] ==> pad == [])
    && NestsMembers(members, depth + 1)
    case _ => true
  }

  ghost predicate NestsElement(e: Element, depth: nat)
    decreases e, 0
  {
    AllSpace(e.pre) && AllSpace(e.post) && Nests(e.value, depth)
  }

  ghost predicate NestsAll(items: seq<Element>, depth: nat)
    decreases items, 0
  {
    items == [] || (NestsElement(items[0], depth) && NestsAll(items[1..], depth))
  }

  ghost predicate NestsMembers(members: seq<Member>, depth: nat)
    decreases members, 0
  {
    members == []
    || (AllSpace(members[0].pre) && AllSpace(members[0].post) && NestsElement(members[0].elem, depth)
        && NestsMembers(members[1..], depth))
  }

  // ---- the bytes of RFC 8259 ------------------------------------------------------------------------------------

  /** Section 2: structural characters and white space. */
  lemma Structural(c: byte)
    ensures IsSpace(c) <==> OneOf(c, " \t\n\r")
    ensures OPEN_ARRAY as char == '[' && CLOSE_ARRAY as char == ']' && COMMA as char == ','
    ensures OPEN_OBJECT as char == '{' && CLOSE_OBJECT as char == '}' && COLON as char == ':'
  {
  }

  /** Section 3: the literal names. */
  lemma Names()
    ensures Spells(TRUE, "true") && Spells(FALSE, "false") && Spells(NULL, "null")
  {
  }

  /** Section 6: the characters of a number. */
  lemma NumberCharacters(c: byte)
    ensures IsDigit(c) <==> OneOf(c, "0123456789")
    ensures IsDigit(c) ==> "0123456789"[Digit(c)] == c as char
    ensures IsExpMark(c) <==> OneOf(c, "eE")
    ensures MINUS as char == '-' && PLUS as char == '+' && POINT as char == '.' && ZERO as char == '0'
  {
  }

  /** Section 7: the characters of a string. */
  lemma StringCharacters(c: byte)
    ensures QUOTE as char == '"' && BACKSLASH as char == '\\' && LETTER_U as char == 'u'
    ensures IsRaw(c) <==> 0x20 <= c <= 0x21 || 0x23 <= c <= 0x5b || 0x5d <= c
    ensures IsEscape(c) <==> OneOf(c, "\"\\/bfnrt")
    ensures IsHex(c) <==> OneOf(c, "0123456789abcdefABCDEF")
  {
  }
}
