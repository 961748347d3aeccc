/**
 Text-mode arrays and composites (query/write_encode_complex.go) and the input syntax PostgreSQL reads them
 with: sections 8.15.6 (array input and output syntax) and 8.16.6 (composite type input and output syntax) of
 the PostgreSQL documentation.
 */
module TextLiteral {
  import opened Wrappers
  import opened Bytes

  const QUOTE: byte := 0x22
  const BACKSLASH: byte := 0x5c
  const COMMA: byte := 0x2c
  const OPEN_ARRAY: byte := 0x7b
  const CLOSE_ARRAY: byte := 0x7d
  const OPEN_ROW: byte := 0x28
  const CLOSE_ROW: byte := 0x29
  const NULL_WORD: seq<byte> := [0x4e, 0x55, 0x4c, 0x4c]

  predicate IsSpace(c: byte) {
    c == 0x20 || 0x09 <= c <= 0x0d
  }

  function Upper(c: byte): byte {
    if 0x61 <= c <= 0x7a then c - 32 else c
  }

  /** The word null, in any case. */
  predicate IsNullWord(s: seq<byte>) {
    |s| == 4 && Upper(s[0]) == 0x4e && Upper(s[1]) == 0x55 && Upper(s[2]) == 0x4c && Upper(s[3]) == 0x4c
  }

  // ---- writing ----------------------------------------------------------------------------------------

  predicate Special(c: byte, inArray: bool) {
    || c == QUOTE || c == BACKSLASH || c == COMMA || IsSpace(c)
    || (if inArray then c == OPEN_ARRAY || c == CLOSE_ARRAY else c == OPEN_ROW || c == CLOSE_ROW)
  }

  predicate NeedsQuotes(text: seq<byte>, inArray: bool) {
    text == [] || (inArray && IsNullWord(text)) || exists i :: 0 <= i < |text| && Special(text[i], inArray)
  }

  function Escaped(text: seq<byte>): seq<byte> {
    if text == [] then [] else EscapedByte(text[0]) + Escaped(text[1..])
  }

  function EscapedByte(c: byte): seq<byte> {
    if c == QUOTE || c == BACKSLASH then [BACKSLASH, c] else [c]
  }

  function Quoted(text: seq<byte>, inArray: bool): seq<byte> {
    if NeedsQuotes(text, inArray) then [QUOTE] + (Escaped(text) + [QUOTE]) else text
  }

  /** The characters PostgreSQL's readers of arrays and rows give a meaning to. */
  lemma SpecialIff(c: byte)
    ensures IsSpace(c) <==> OneOf(c, " \t\n\r\U{0b}\U{0c}")
    ensures Special(c, true) <==> OneOf(c, "\"\\,{} \t\n\r\U{0b}\U{0c}")
    ensures Special(c, false) <==> OneOf(c, "\"\\,() \t\n\r\U{0b}\U{0c}")
    ensures QUOTE as char == '"' && BACKSLASH as char == '\\' && COMMA as char == ','
    ensures OPEN_ARRAY as char == '{' && CLOSE_ARRAY as char == '}'
    ensures OPEN_ROW as char == '(' && CLOSE_ROW as char == ')'
  {
  }

  /** Text goes between quotes exactly when it is empty, looks like a null, or has a character with a meaning. */
  lemma QuotedIff(text: seq<byte>, inArray: bool)
    ensures Quoted(text, inArray) == text
            <==> && text != []
                 && !(inArray && |text| == 4 && OneOf(text[0], "nN") && OneOf(text[1], "uU") && OneOf(text[2], "lL")
                      && OneOf(text[3], "lL"))
                 && forall c :: c in text ==> !OneOf(c, if inArray then "\"\\,{} \t\n\r\U{0b}\U{0c}"
                                                       else "\"\\,() \t\n\r\U{0b}\U{0c}")
    ensures Spells(NULL_WORD, "NULL")
  {
    hide Special, OneOf;
    EscapedLonger(text);
    WordIff(text);
    forall c ensures Special(c, inArray) <==> OneOf(c, if inArray then "\"\\,{} \t\n\r\U{0b}\U{0c}"
                                                       else "\"\\,() \t\n\r\U{0b}\U{0c}") {
      SpecialIff(c);
    }
    assert forall i :: 0 <= i < |text| ==> text[i] in text;
    NullSpelled();
  }

  lemma NullSpelled()
    ensures Spells(NULL_WORD, "NULL")
  {
  }

  lemma WordIff(text: seq<byte>)
    ensures IsNullWord(text) <==> |text| == 4 && OneOf(text[0], "nN") && OneOf(text[1], "uU") && OneOf(text[2], "lL")
                                  && OneOf(text[3], "lL")
  {
  }

  lemma {:induction false} EscapedLonger(text: seq<byte>)
    ensures |Escaped(text)| >= |text|
  {
    if text != [] {
      EscapedLonger(text[1..]);
    }
  }

  /** appendQuoted: the text as it is, or in quotes when a reader would take it for something else. */
  method AppendQuoted(dst: seq<byte>, text: seq<byte>, inArray: bool) returns (out: seq<byte>)
    ensures out == dst + Quoted(text, inArray)
  {
    hide Special, IsNullWord;
    var need := |text| == 0;
    if inArray && IsNullWord(text) {
      need := true;
    }
    for i := 0 to |text|
      invariant need == (text == [] || (inArray && IsNullWord(text)) || exists j ::
                           0 <= j < i && Special(text[j], inArray))
    {
      if Special(text[i], inArray) {
        need := true;
      }
    }
    if !need {
      return dst + text;
    }
    out := AppendEscaped(dst + [QUOTE], text);
    Assoc(dst, [QUOTE], Escaped(text));
    out := out + [QUOTE];
    Assoc(dst, [QUOTE] + Escaped(text), [QUOTE]);
    Assoc([QUOTE], Escaped(text), [QUOTE]);
  }

  method AppendEscaped(dst: seq<byte>, text: seq<byte>) returns (out: seq<byte>)
    ensures out == dst + Escaped(text)
  {
    out := dst;
    assert text[0..] == text;
    for i := 0 to |text|
      invariant out + Escaped(text[i..]) == dst + Escaped(text)
    {
      assert text[i..][0] == text[i] && text[i..][1..] == text[i + 1..];
      Assoc(out, EscapedByte(text[i]), Escaped(text[i + 1..]));
      var c := text[i];
      if c == QUOTE || c == BACKSLASH {
        out := out + [BACKSLASH, c];
      } else {
        out := out + [c];
      }
    }
    assert out + [] == out;
  }

  /** An array's elements: NULL, a text, or a sub-array. */
  datatype Elem = Null | Item(text: seq<byte>) | Sub(items: seq<Elem>)

  function ElemText(e: Elem): seq<byte>
    decreases e, 0
  {
    match e
    case Null => NULL_WORD
    case Item(text) => Quoted(text, true)
    case Sub(items) => ArrayText(items)
  }

  function ArrayText(items: seq<Elem>): seq<byte>
    decreases items, 1
  {
    [OPEN_ARRAY] + if items == [] then [CLOSE_ARRAY] else ElemsText(items)
  }

  /** The elements with commas between them, and the closing brace. */
  function ElemsText(items: seq<Elem>): seq<byte>
    requires items != []
    decreases items, 0
  {
    ElemText(items[0]) + if |items| == 1 then [CLOSE_ARRAY] else [COMMA] + ElemsText(items[1..])
  }

  /** A field is text, or NULL, which is written as nothing. */
  function FieldText(f: Option<seq<byte>>): seq<byte> {
    if f.None? then [] else Quoted(f.value, false)
  }

  function FieldsText(fields: seq<Option<seq<byte>>>): seq<byte>
    requires fields != []
  {
    FieldText(fields[0]) + if |fields| == 1 then [CLOSE_ROW] else [COMMA] + FieldsText(fields[1..])
  }

  function RowText(fields: seq<Option<seq<byte>>>): seq<byte> {
    [OPEN_ROW] + if fields == [] then [CLOSE_ROW] else FieldsText(fields)
  }

  // ---- reading arrays ------------------------------------------------------------------------------------

  function SkipSpace(s: seq<byte>): (r: seq<byte>)
    ensures |r| <= |s|
  {
    if s != [] && IsSpace(s[0]) then SkipSpace(s[1..]) else s
  }

  /** After an opening quote: characters up to the closing one, a backslash taking the next as it is. */
  function InQuotes(s: seq<byte>): (g: Got<seq<byte>>)
    ensures g.Got? ==> |g.rest| < |s|
  {
    if s == [] then No
    else if s[0] == QUOTE then Got([], s[1..])
    else if s[0] == BACKSLASH then
      if |s| < 2 then No else Before(s[1], InQuotes(s[2..]))
    else Before(s[0], InQuotes(s[1..]))
  }

  function Before(c: byte, g: Got<seq<byte>>): (r: Got<seq<byte>>)
    ensures r.Got? <==> g.Got?
    ensures r.Got? ==> r.value == [c] + g.value && r.rest == g.rest
  {
    if g.No? then No else Got([c] + g.value, g.rest)
  }

  /** An element without quotes: up to a comma or a closing brace, without the white space before it. */
  function Plain(s: seq<byte>): (g: Got<seq<byte>>)
    ensures g.Got? ==> |g.rest| <= |s| && (g.value != [] ==> |g.rest| < |s|)
  {
    if s == [] || s[0] == QUOTE || s[0] == OPEN_ARRAY then No
    else if s[0] == COMMA || s[0] == CLOSE_ARRAY then Got([], s)
    else if s[0] == BACKSLASH then
      if |s| < 2 then No else Before(s[1], Plain(s[2..]))
    else
      var more := Plain(s[1..]);
      if more.Got? && more.value == [] && IsSpace(s[0]) then more else Before(s[0], more)
  }

  function ReadElem(s: seq<byte>): (g: Got<Elem>)
    ensures g.Got? ==> |g.rest| < |s|
    decreases |s|, 0
  {
    var t := SkipSpace(s);
    if t == [] then No
    else if t[0] == OPEN_ARRAY then
      var g := ReadArray(t);
      if g.No? then No else Got(Sub(g.value), g.rest)
    else if t[0] == QUOTE then
      var g := InQuotes(t[1..]);
      if g.No? then No else Got(Item(g.value), g.rest)
    else
      var g := Plain(t);
      if g.No? || g.value == [] then No
      else Got(if IsNullWord(g.value) && g.value <= t then Null else Item(g.value), g.rest)
  }

  function ReadArray(s: seq<byte>): (g: Got<seq<Elem>>)
    requires s != []
    ensures g.Got? ==> |g.rest| < |s|
    decreases |s| - 1, 2
  {
    var t := SkipSpace(s[1..]);
    if t != [] && t[0] == CLOSE_ARRAY then Got([], t[1..]) else ReadElems(s[1..])
  }

  function ReadElems(s: seq<byte>): (g: Got<seq<Elem>>)
    ensures g.Got? ==> |g.rest| < |s|
    decreases |s|, 1
  {
    var e := ReadElem(s);
    if e.No? then No
    else
      var t := SkipSpace(e.rest);
      if t == [] then No
      else if t[0] == CLOSE_ARRAY then Got([e.value], t[1..])
      else if t[0] == COMMA then
        var g := ReadElems(t[1..]);
        if g.No? then No else Got([e.value] + g.value, g.rest)
      else No
  }

  // ---- reading composites -----------------------------------------------------------------------------------

  /** A field: characters up to a comma or a closing parenthesis outside quotes. */
  function FieldChars(s: seq<byte>, inQuote: bool): (g: Got<seq<byte>>)
    ensures g.Got? ==> |g.rest| <= |s|
  {
    if s == [] then No
    else if !inQuote && (s[0] == COMMA || s[0] == CLOSE_ROW) then Got([], s)
    else if s[0] == BACKSLASH then
      if |s| < 2 then No else Before(s[1], FieldChars(s[2..], inQuote))
    else if s[0] == QUOTE then
      if !inQuote then FieldChars(s[1..], true)
      else if |s| >= 2 && s[1] == QUOTE then Before(QUOTE, FieldChars(s[2..], true))
      else FieldChars(s[1..], false)
    else Before(s[0], FieldChars(s[1..], inQuote))
  }

  function ReadField(s: seq<byte>): (g: Got<Option<seq<byte>>>)
    ensures g.Got? ==> |g.rest| <= |s|
  {
    if s != [] && (s[0] == COMMA || s[0] == CLOSE_ROW) then Got(None, s)
    else
      var g := FieldChars(s, false);
      if g.No? then No else Got(Some(g.value), g.rest)
  }

  function ReadFields(s: seq<byte>, count: nat): Got<seq<Option<seq<byte>>>>
    requires count > 0
    decreases count
  {
    var f := ReadField(s);
    if f.No? || f.rest == [] then No
    else if count == 1 then if f.rest[0] == CLOSE_ROW then Got([f.value], f.rest[1..]) else No
    else if f.rest[0] != COMMA then No
    else
      var g := ReadFields(f.rest[1..], count - 1);
      if g.No? then No else Got([f.value] + g.value, g.rest)
  }

  function ReadRow(s: seq<byte>, count: nat): Got<seq<Option<seq<byte>>>> {
    if s == [] || s[0] != OPEN_ROW then No
    else if count == 0 then if |s| >= 2 && s[1] == CLOSE_ROW then Got([], s[2..]) else No
    else ReadFields(s[1..], count)
  }

  // ---- what is written is read back ----------------------------------------------------------------------------

  lemma {:induction false} InQuotesBack(text: seq<byte>, rest: seq<byte>)
    ensures InQuotes(Escaped(text) + ([QUOTE] + rest)) == Got(text, rest)
  {
    var tail := [QUOTE] + rest;
    if text == [] {
      assert Escaped(text) + tail == tail && tail[1..] == rest;
    } else {
      InQuotesBack(text[1..], rest);
      Assoc(EscapedByte(text[0]), Escaped(text[1..]), tail);
      InQuotesByte(text[0], Escaped(text[1..]) + tail);
      assert text == [text[0]] + text[1..];
    }
  }

  lemma Assoc(a: seq<byte>, b: seq<byte>, c: seq<byte>)
    ensures a + b + c == a + (b + c)
  {
  }

  lemma InQuotesByte(c: byte, more: seq<byte>)
    ensures InQuotes(EscapedByte(c) + more) == Before(c, InQuotes(more))
  {
    hide Before;
    var s := EscapedByte(c) + more;
    assert s[|EscapedByte(c)|..] == more;
  }

  /** What may follow an element. */
  predicate EndsElem(rest: seq<byte>) {
    rest != [] && (rest[0] == COMMA || rest[0] == CLOSE_ARRAY)
  }

  lemma {:induction false} PlainBack(text: seq<byte>, rest: seq<byte>)
    requires EndsElem(rest) && forall i :: 0 <= i < |text| ==> !Special(text[i], true)
    ensures Plain(text + rest) == Got(text, rest)
  {
    if text == [] {
      assert text + rest == rest;
    } else {
      PlainBack(text[1..], rest);
      assert (text + rest)[1..] == text[1..] + rest && text == [text[0]] + text[1..];
      assert !Special(text[0], true);
    }
  }

  lemma ItemBack(text: seq<byte>, rest: seq<byte>)
    requires EndsElem(rest)
    ensures ReadElem(Quoted(text, true) + rest) == Got(Item(text), rest)
  {
    hide InQuotes, Plain, Escaped, ReadArray;
    var s := Quoted(text, true) + rest;
    if NeedsQuotes(text, true) {
      assert s == [QUOTE] + (Escaped(text) + ([QUOTE] + rest));
      assert s[1..] == Escaped(text) + ([QUOTE] + rest);
      InQuotesBack(text, rest);
    } else {
      PlainBack(text, rest);
      assert s[0] == text[0] && !Special(text[0], true) && s[..|text|] == text;
    }
  }

  lemma NullBack(rest: seq<byte>)
    requires EndsElem(rest)
    ensures ReadElem(NULL_WORD + rest) == Got(Null, rest)
  {
    hide Plain, ReadArray;
    var s := NULL_WORD + rest;
    PlainBack(NULL_WORD, rest);
    assert s[..4] == NULL_WORD;
  }

  lemma {:induction false} ElemBack(e: Elem, rest: seq<byte>)
    requires EndsElem(rest)
    ensures ReadElem(ElemText(e) + rest) == Got(e, rest)
    decreases e, 0
  {
    hide ReadArray, Quoted, ArrayText;
    match e
    case Null => NullBack(rest);
    case Item(text) => ItemBack(text, rest);
    case Sub(items) =>
      ArrayBack(items, rest);
      SubStart(items, rest);
  }

  lemma SubStart(items: seq<Elem>, rest: seq<byte>)
    ensures (ArrayText(items) + rest)[0] == OPEN_ARRAY
  {
  }

  lemma {:induction false} ArrayBack(items: seq<Elem>, rest: seq<byte>)
    ensures ReadArray(ArrayText(items) + rest) == Got(items, rest)
    decreases items, 1
  {
    hide ReadElems, ElemsText;
    var s := ArrayText(items) + rest;
    if items == [] {
      var t := [CLOSE_ARRAY] + rest;
      assert s[1..] == t && t[1..] == rest;
    } else {
      assert s[1..] == ElemsText(items) + rest;
      ElemsBack(items, rest);
      ElemsStart(items, rest);
    }
  }

  /** Elements start with no white space and no closing brace. */
  lemma ElemsStart(items: seq<Elem>, rest: seq<byte>)
    requires items != []
    ensures var s := ElemsText(items) + rest; s != [] && !IsSpace(s[0]) && s[0] != CLOSE_ARRAY
  {
    hide ElemText;
    ElemStart(items[0]);
  }

  lemma ElemStart(e: Elem)
    ensures ElemText(e) != [] && !IsSpace(ElemText(e)[0]) && ElemText(e)[0] != CLOSE_ARRAY
  {
    match e
    case Null =>
    case Item(text) =>
      if !NeedsQuotes(text, true) {
        assert !Special(text[0], true);
      }
    case Sub(items) => assert ArrayText(items)[0] == OPEN_ARRAY;
  }

  lemma {:induction false} ElemsBack(items: seq<Elem>, rest: seq<byte>)
    requires items != []
    ensures ReadElems(ElemsText(items) + rest) == Got(items, rest)
    decreases items, 0
  {
    hide ReadElem, ElemText;
    var e := items[0];
    if |items| == 1 {
      var after := [CLOSE_ARRAY] + rest;
      assert ElemsText(items) + rest == ElemText(e) + after;
      ElemBack(e, after);
      assert items == [e] && after[1..] == rest;
    } else {
      var after := [COMMA] + (ElemsText(items[1..]) + rest);
      assert ElemsText(items) + rest == ElemText(e) + after;
      ElemBack(e, after);
      ElemsBack(items[1..], rest);
      assert items == [e] + items[1..] && after[1..] == ElemsText(items[1..]) + rest;
    }
  }

  // ---- composites ---------------------------------------------------------------------------------------------------

  predicate EndsField(rest: seq<byte>) {
    rest != [] && (rest[0] == COMMA || rest[0] == CLOSE_ROW)
  }

  lemma {:induction false} QuotedFieldBack(text: seq<byte>, rest: seq<byte>)
    requires EndsField(rest)
    ensures FieldChars(Escaped(text) + ([QUOTE] + rest), true) == Got(text, rest)
  {
    var tail := [QUOTE] + rest;
    if text == [] {
      assert Escaped(text) + tail == tail && tail[1..] == rest;
      assert FieldChars(rest, false) == Got([], rest);
    } else {
      QuotedFieldBack(text[1..], rest);
      Assoc(EscapedByte(text[0]), Escaped(text[1..]), tail);
      FieldByte(text[0], Escaped(text[1..]) + tail);
      assert text == [text[0]] + text[1..];
    }
  }

  lemma FieldByte(c: byte, more: seq<byte>)
    ensures FieldChars(EscapedByte(c) + more, true) == Before(c, FieldChars(more, true))
  {
    hide Before;
    var s := EscapedByte(c) + more;
    assert s[|EscapedByte(c)|..] == more;
  }

  lemma {:induction false} PlainFieldBack(text: seq<byte>, rest: seq<byte>)
    requires EndsField(rest) && forall i :: 0 <= i < |text| ==> !Special(text[i], false)
    ensures FieldChars(text + rest, false) == Got(text, rest)
  {
    if text == [] {
      assert text + rest == rest;
    } else {
      PlainFieldBack(text[1..], rest);
      assert (text + rest)[1..] == text[1..] + rest && text == [text[0]] + text[1..];
      assert !Special(text[0], false);
    }
  }

  lemma FieldBack(f: Option<seq<byte>>, rest: seq<byte>)
    requires EndsField(rest)
    ensures ReadField(FieldText(f) + rest) == Got(f, rest)
  {
    hide Escaped;
    var s := FieldText(f) + rest;
    if f.None? {
      assert s == rest;
    } else if NeedsQuotes(f.value, false) {
      assert s == [QUOTE] + (Escaped(f.value) + ([QUOTE] + rest));
      assert s[1..] == Escaped(f.value) + ([QUOTE] + rest);
      QuotedFieldBack(f.value, rest);
    } else {
      PlainFieldBack(f.value, rest);
      assert s[0] == f.value[0] && !Special(f.value[0], false);
    }
  }

  lemma {:induction false} FieldsBack(fields: seq<Option<seq<byte>>>, rest: seq<byte>)
    requires fields != []
    ensures ReadFields(FieldsText(fields) + rest, |fields|) == Got(fields, rest)
  {
    hide ReadField, FieldText;
    if |fields| == 1 {
      var after := [CLOSE_ROW] + rest;
      assert FieldsText(fields) + rest == FieldText(fields[0]) + after;
      FieldBack(fields[0], after);
      assert fields == [fields[0]] && after[1..] == rest;
    } else {
      var after := [COMMA] + (FieldsText(fields[1..]) + rest);
      assert FieldsText(fields) + rest == FieldText(fields[0]) + after;
      FieldBack(fields[0], after);
      FieldsBack(fields[1..], rest);
      assert fields == [fields[0]] + fields[1..] && after[1..] == FieldsText(fields[1..]) + rest;
    }
  }

  lemma RowBack(fields: seq<Option<seq<byte>>>, rest: seq<byte>)
    ensures ReadRow(RowText(fields) + rest, |fields|) == Got(fields, rest)
  {
    hide ReadFields, FieldsText;
    var s := RowText(fields) + rest;
    if fields == [] {
      assert s[2..] == rest;
    } else {
      assert s[1..] == FieldsText(fields) + rest;
      FieldsBack(fields, rest);
    }
  }

  // ---- values of nested types -------------------------------------------------------------------------------------

  /**
   A text-mode type: text, an array of one element type, or a composite. An array's dimensions are no types of their
   own.
   */
  datatype Type = TextType | ArrayType(elem: Type) | RowType(columns: seq<Column>)

  datatype Column = Column(name: string, type_: Type)

  datatype Val = VNull | VText(s: seq<byte>) | VArray(items: seq<Val>) | VRow(fields: map<string, Val>)

  /** ObjectGet, an absent field being NULL. */
  function FieldOf(m: map<string, Val>, name: string): Val {
    if name in m then m[name] else VNull
  }

  /** The first element decides whether there is another dimension. */
  predicate Nested(items: seq<Val>) {
    items != [] && items[0].VArray?
  }

  /**
   What the writer takes for a type: text without NUL and anything else as text, arrays level by level, composites
   column by column.
   */
  ghost predicate Accepts(v: Val, t: Type)
    decreases t, 0, v
  {
    match t
    case TextType => !v.VNull? && (v.VText? ==> 0 !in v.s)
    case ArrayType(e) => v.VArray? && ItemsAccepted(v.items, e)
    case RowType(fs) => v.VRow? && FieldsAccepted(v.fields, fs)
  }

  ghost predicate ItemsAccepted(items: seq<Val>, e: Type)
    decreases e, 1, items
  {
    forall i :: 0 <= i < |items| ==> ItemAccepted(items[i], e, Nested(items))
  }

  ghost predicate ItemAccepted(v: Val, e: Type, nested: bool)
    decreases e, 1, v
  {
    v.VNull? || (if nested then v.VArray? && ItemsAccepted(v.items, e) else Accepts(v, e))
  }

  ghost predicate FieldsAccepted(m: map<string, Val>, fs: seq<Column>)
    decreases fs, 1, 0
  {
    fs == [] || ((FieldOf(m, fs[0].name).VNull? || Accepts(FieldOf(m, fs[0].name), fs[0].type_))
                 && FieldsAccepted(m, fs[1..]))
  }

  /** The literal of a value; a value that is not text goes into a text type as its JSON text. */
  ghost function Encode(v: Val, t: Type, json: Val -> seq<byte>): seq<byte>
    requires Accepts(v, t)
    decreases t, 0, v
  {
    match t
    case TextType => if v.VText? then v.s else json(v)
    case ArrayType(e) => ArrayText(Elems(v.items, e, json))
    case RowType(fs) => RowText(Fields(v.fields, fs, json))
  }

  ghost function Elems(items: seq<Val>, e: Type, json: Val -> seq<byte>): (r: seq<Elem>)
    requires ItemsAccepted(items, e)
    ensures |r| == |items| && forall i :: 0 <= i < |items| ==>
                                            ItemAccepted(items[i], e, Nested(items)) && r[i]
                                            == ElemOf(items[i], e, Nested(items), json)
    decreases e, 1, items
  {
    seq(|items|, i requires 0 <= i < |items| => ElemOf(items[i], e, Nested(items), json))
  }

  ghost function ElemOf(v: Val, e: Type, nested: bool, json: Val -> seq<byte>): Elem
    requires ItemAccepted(v, e, nested)
    decreases e, 1, v
  {
    if v.VNull? then Null else if nested then Sub(Elems(v.items, e, json)) else Item(Encode(v, e, json))
  }

  ghost function Fields(m: map<string, Val>, fs: seq<Column>, json: Val -> seq<byte>): (r: seq<Option<seq<byte>>>)
    requires FieldsAccepted(m, fs)
    ensures |r| == |fs|
    decreases fs, 1, 0
  {
    if fs == [] then []
    else
      var v := FieldOf(m, fs[0].name);
      [if v.VNull? then None else Some(Encode(v, fs[0].type_, json))] + Fields(m, fs[1..], json)
  }

  // ---- the encoders -----------------------------------------------------------------------------------------------

  /** textModeEncoder: the literal of a value of a type, or a refusal of a value the type does not take. */
  method AppendText(dst: seq<byte>, v: Val, t: Type, json: Val -> seq<byte>) returns (ok: bool, out: seq<byte>)
    ensures ok <==> Accepts(v, t)
    ensures ok ==> out == dst + Encode(v, t, json)
    decreases t, 0, v
  {
    hide ArrayText, RowText, ItemsAccepted, FieldsAccepted;
    match t
    case TextType =>
      if v.VNull? || (v.VText? && 0 in v.s) {
        return false, dst;
      }
      return true, dst + (if v.VText? then v.s else json(v));
    case ArrayType(e) =>
      if !v.VArray? {
        return false, dst;
      }
      ok, out := AppendTextArray(dst, v.items, e, json);
    case RowType(fs) =>
      if !v.VRow? {
        return false, dst;
      }
      ok, out := AppendTextRow(dst, v.fields, fs, json);
  }

  method AppendTextArray(dst: seq<byte>, items: seq<Val>, e: Type, json: Val -> seq<byte>)
  returns (ok: bool, out: seq<byte>)
    ensures ok <==> ItemsAccepted(items, e)
    ensures ok ==> out == dst + ArrayText(Elems(items, e, json))
    decreases e, 1, items
  {
    hide ElemText, Accepts, ElemsText, ItemAccepted, ElemOf, Written, ArrayText;
    out := dst + [OPEN_ARRAY];
    ghost var es: seq<Elem> := [];
    NothingWritten();
    for i := 0 to |items|
      invariant |es| == i
      invariant forall j :: 0 <= j < i ==> ItemAccepted(items[j], e, Nested(items))
                                           && es[j] == ElemOf(items[j], e, Nested(items), json)
      invariant out == dst + ([OPEN_ARRAY] + Written(es))
    {
      if i > 0 {
        out := out + [COMMA];
      }
      var good;
      good, out := AppendItem(out, items[i], e, Nested(items), json);
      if !good {
        return false, out;
      }
      WrittenNext(es, ElemOf(items[i], e, Nested(items), json));
      Regroup(dst, [OPEN_ARRAY], Written(es), if i > 0 then [COMMA]
              else [], ElemText(ElemOf(items[i], e, Nested(items), json)));
      es := es + [ElemOf(items[i], e, Nested(items), json)];
    }
    assert es == Elems(items, e, json);
    out := out + [CLOSE_ARRAY];
    WrittenAll(es);
    Assoc([OPEN_ARRAY], Written(es), [CLOSE_ARRAY]);
    Assoc(dst, [OPEN_ARRAY] + Written(es), [CLOSE_ARRAY]);
    ok := true;
  }

  lemma Regroup(a: seq<byte>, b: seq<byte>, c: seq<byte>, d: seq<byte>, e: seq<byte>)
    ensures a + (b + c) + d + e == a + (b + (c + (d + e)))
  {
  }

  /** Elements with commas between them. */
  ghost function Written(es: seq<Elem>): seq<byte> {
    if es == [] then []
    else Written(es[..|es| - 1]) + ((if |es| > 1 then [COMMA] else []) + ElemText(es[|es| - 1]))
  }

  lemma NothingWritten()
    ensures Written([]) == []
  {
  }

  lemma WrittenNext(es: seq<Elem>, e: Elem)
    ensures Written(es + [e]) == Written(es) + ((if |es| > 0 then [COMMA] else []) + ElemText(e))
  {
    hide ElemText;
    assert (es + [e])[..|es|] == es;
  }

  lemma {:induction false} WrittenAll(es: seq<Elem>)
    ensures Written(es) + [CLOSE_ARRAY] == if es == [] then [CLOSE_ARRAY] else ElemsText(es)
    ensures [OPEN_ARRAY] + (Written(es) + [CLOSE_ARRAY]) == ArrayText(es)
  {
    hide ElemText;
    if es != [] {
      WrittenFrom(es, 0);
      assert es[0..] == es && es[..0] == [];
      assert [] + ElemsText(es) == ElemsText(es);
    }
  }

  lemma {:induction false} WrittenFrom(es: seq<Elem>, i: nat)
    requires i < |es|
    ensures Written(es) + [CLOSE_ARRAY] == Written(es[..i]) + ((if i > 0 then [COMMA] else []) + ElemsText(es[i..]))
    decreases |es| - i
  {
    hide ElemText;
    var sep := if i > 0 then [COMMA] else [];
    assert es[..i + 1][..i] == es[..i] && es[i..][0] == es[i] && es[i..][1..] == es[i + 1..];
    if i == |es| - 1 {
      assert es[..i + 1] == es;
      Assoc(Written(es[..i]), sep + ElemText(es[i]), [CLOSE_ARRAY]);
      Assoc(sep, ElemText(es[i]), [CLOSE_ARRAY]);
    } else {
      WrittenFrom(es, i + 1);
      Assoc(Written(es[..i]), sep + ElemText(es[i]), [COMMA] + ElemsText(es[i + 1..]));
      Assoc(sep, ElemText(es[i]), [COMMA] + ElemsText(es[i + 1..]));
    }
  }

  /** One element: NULL, a sub-array, or an element's text in quotes as needed. */
  method AppendItem(dst: seq<byte>, v: Val, e: Type, nested: bool, json: Val -> seq<byte>)
  returns (ok: bool, out: seq<byte>)
    ensures ok <==> ItemAccepted(v, e, nested)
    ensures ok ==> out == dst + ElemText(ElemOf(v, e, nested, json))
    decreases e, 1, v
  {
    hide Quoted, ArrayText, Accepts, ItemsAccepted, Encode;
    if v.VNull? {
      return true, dst + NULL_WORD;
    }
    if nested {
      if !v.VArray? {
        return false, dst;
      }
      ok, out := AppendTextArray(dst, v.items, e, json);
    } else {
      var scratch;
      ok, scratch := AppendText([], v, e, json);
      if !ok {
        return false, dst;
      }
      assert [] + Encode(v, e, json) == Encode(v, e, json);
      out := AppendQuoted(dst, scratch, true);
    }
  }

  method AppendTextRow(dst: seq<byte>, m: map<string, Val>, fs: seq<Column>, json: Val -> seq<byte>)
  returns (ok: bool, out: seq<byte>)
    ensures ok <==> FieldsAccepted(m, fs)
    ensures ok ==> out == dst + RowText(Fields(m, fs, json))
    decreases fs, 2
  {
    hide FieldsText, FieldsAccepted, Fields;
    if fs == [] {
      NoFields(m, json);
      return true, dst + [OPEN_ROW] + [CLOSE_ROW];
    }
    ok, out := AppendFields(dst + [OPEN_ROW], m, fs, json);
    if ok {
      Assoc(dst, [OPEN_ROW], FieldsText(Fields(m, fs, json)));
    }
  }

  lemma NoFields(m: map<string, Val>, json: Val -> seq<byte>)
    ensures FieldsAccepted(m, []) && Fields(m, [], json) == []
  {
  }

  /**
   The columns in order, each with the field of its name: an absent or null one is empty, one of no column is ignored.
   */
  method AppendFields(dst: seq<byte>, m: map<string, Val>, fs: seq<Column>, json: Val -> seq<byte>)
  returns (ok: bool, out: seq<byte>)
    requires fs != []
    ensures ok <==> FieldsAccepted(m, fs)
    ensures ok ==> out == dst + FieldsText(Fields(m, fs, json))
    decreases fs, 1
  {
    hide Accepts, Encode, Quoted;
    out := dst;
    var v := FieldOf(m, fs[0].name);
    if !v.VNull? {
      var scratch;
      ok, scratch := AppendText([], v, fs[0].type_, json);
      if !ok {
        return false, dst;
      }
      assert [] + Encode(v, fs[0].type_, json) == Encode(v, fs[0].type_, json);
      out := AppendQuoted(dst, scratch, false);
    }
    ghost var first := FieldText(if v.VNull? then None else Some(Encode(v, fs[0].type_, json)));
    assert out == dst + first;
    if |fs| == 1 {
      assert FieldsAccepted(m, fs[1..]);
      Assoc(dst, first, [CLOSE_ROW]);
      return true, out + [CLOSE_ROW];
    }
    ok, out := AppendFields(out + [COMMA], m, fs[1..], json);
    if ok {
      ghost var more := FieldsText(Fields(m, fs[1..], json));
      assert Fields(m, fs, json)[1..] == Fields(m, fs[1..], json);
      Assoc(dst, first, [COMMA]);
      Assoc(dst, first + [COMMA], more);
      Assoc(first, [COMMA], more);
    }
  }

  // ---- reading a typed literal ------------------------------------------------------------------------------------

  /** The extents of an array literal: sub-arrays must have matching ones, and do not mix with elements or NULL. */
  ghost function Extents(es: seq<Elem>): Option<seq<nat>>
    decreases es
  {
    if es == [] then Some([0])
    else if forall i :: 0 <= i < |es| ==> !es[i].Sub? then Some([|es|])
    else if forall i :: 0 <= i < |es| ==> es[i].Sub? then
      var inner := Extents(es[0].items);
      if inner.None? || (exists i :: 0 <= i < |es| && Extents(es[i].items) != inner) then None
         else Some([|es|] + inner.value)
    else None
  }

  /** What PostgreSQL stores for a literal of a type; an array with an extent of zero is the empty array. */
  ghost function Decode(s: seq<byte>, t: Type): Option<Val>
    decreases t, 0, 0
  {
    match t
    case TextType => Some(VText(s))
    case ArrayType(e) =>
      if s == [] || s[0] != OPEN_ARRAY then None
      else
        var g := ReadArray(s);
        if g.No? || g.rest != [] || Extents(g.value).None? then None
        else if 0 in Extents(g.value).value then Some(VArray([]))
        else
          var items := FromElems(g.value, e);
          if items.None? then None else Some(VArray(items.value))
    case RowType(fs) =>
      var g := ReadRow(s, |fs|);
      if g.No? || g.rest != [] || |g.value| != |fs| then None
      else
        var m := FromFields(g.value, fs);
        if m.None? then None else Some(VRow(m.value))
  }

  ghost function FromElems(es: seq<Elem>, t: Type): Option<seq<Val>>
    decreases t, 1, es
  {
    if es == [] then Some([])
    else
      var first := FromElem(es[0], t);
      var rest := FromElems(es[1..], t);
      if first.None? || rest.None? then None else Some([first.value] + rest.value)
  }

  ghost function FromElem(e: Elem, t: Type): Option<Val>
    decreases t, 1, e
  {
    match e
    case Null => Some(VNull)
    case Item(text) => Decode(text, t)
    case Sub(items) =>
      var vs := FromElems(items, t);
      if vs.None? then None else Some(VArray(vs.value))
  }

  ghost function FromFields(texts: seq<Option<seq<byte>>>, fs: seq<Column>): Option<map<string, Val>>
    requires |texts| == |fs|
    decreases fs, 1, 0
  {
    if texts == [] then Some(map[])
    else
      var first := if texts[0].None? then Some(VNull) else Decode(texts[0].value, fs[0].type_);
      var rest := FromFields(texts[1..], fs[1..]);
      if first.None? || rest.None? then None else Some(rest.value[fs[0].name := first.value])
  }

  /** A value of a type: its leaves are text, and an array's elements are no arrays of their own. */
  ghost predicate HasType(v: Val, t: Type)
    decreases t, 0, v
  {
    match t
    case TextType => v.VText? && 0 !in v.s
    case ArrayType(e) => v.VArray? && ItemsTyped(v.items, e)
    case RowType(fs) => v.VRow? && FieldsTyped(v.fields, fs)
  }

  ghost predicate ItemsTyped(items: seq<Val>, e: Type)
    decreases e, 1, items
  {
    !e.ArrayType? && forall i :: 0 <= i < |items| ==> ItemTyped(items[i], e, Nested(items))
  }

  ghost predicate ItemTyped(v: Val, e: Type, nested: bool)
    decreases e, 1, v
  {
    v.VNull? || (if nested then v.VArray? && ItemsTyped(v.items, e) else !v.VArray? && HasType(v, e))
  }

  ghost predicate FieldsTyped(m: map<string, Val>, fs: seq<Column>)
    decreases fs, 1, 0
  {
    fs == [] || ((FieldOf(m, fs[0].name).VNull? || HasType(FieldOf(m, fs[0].name), fs[0].type_))
                 && FieldsTyped(m, fs[1..]))
  }

  // ---- what becomes of a value ------------------------------------------------------------------------------------

  /** The extents of a value; none for a ragged one. */
  ghost function Sizes(items: seq<Val>): Option<seq<nat>>
    decreases items
  {
    if items == [] then Some([0])
    else if !Nested(items) then Some([|items|])
    else if exists i :: 0 <= i < |items| && !items[i].VArray? then None
    else
      var inner := Sizes(items[0].items);
      if inner.None? || (exists i :: 0 <= i < |items| && Sizes(items[i].items) != inner) then None
         else Some([|items|] + inner.value)
  }

  /**
   What a value is stored as: itself, but that an array without elements is empty whatever its nesting, and a composite
   has exactly its columns. None for a value with a ragged array in it.
   */
  ghost function Normal(v: Val, t: Type): Option<Val>
    requires HasType(v, t)
    decreases t, 0, v
  {
    match t
    case TextType => Some(v)
    case ArrayType(e) =>
      if Sizes(v.items).None? then None
      else if 0 in Sizes(v.items).value then Some(VArray([]))
      else
        assert ItemsTyped(v.items, e);
        var items := NormalItems(v.items, e, Nested(v.items));
        if items.None? then None else Some(VArray(items.value))
    case RowType(fs) =>
      var m := NormalFields(v.fields, fs);
      if m.None? then None else Some(VRow(m.value))
  }

  ghost function NormalItems(items: seq<Val>, e: Type, nested: bool): Option<seq<Val>>
    requires forall i :: 0 <= i < |items| ==> ItemTyped(items[i], e, nested)
    decreases e, 1, items
  {
    if items == [] then Some([])
    else
      var first := NormalItem(items[0], e, nested);
      var rest := NormalItems(items[1..], e, nested);
      if first.None? || rest.None? then None else Some([first.value] + rest.value)
  }

  ghost function NormalItem(v: Val, e: Type, nested: bool): Option<Val>
    requires ItemTyped(v, e, nested)
    decreases e, 1, v
  {
    if v.VNull? then Some(v)
    else if nested then
      assert ItemsTyped(v.items, e);
      var items := NormalItems(v.items, e, Nested(v.items));
      if items.None? then None else Some(VArray(items.value))
    else Normal(v, e)
  }

  ghost function NormalFields(m: map<string, Val>, fs: seq<Column>): Option<map<string, Val>>
    requires FieldsTyped(m, fs)
    decreases fs, 1, 0
  {
    if fs == [] then Some(map[])
    else
      var v := FieldOf(m, fs[0].name);
      var first := if v.VNull? then Some(v) else Normal(v, fs[0].type_);
      var rest := NormalFields(m, fs[1..]);
      if first.None? || rest.None? then None else Some(rest.value[fs[0].name := first.value])
  }

  /** The literal has the extents of its value. */
  lemma {:induction false} SameExtents(items: seq<Val>, e: Type, json: Val -> seq<byte>)
    requires ItemsTyped(items, e) && ItemsAccepted(items, e)
    ensures Extents(Elems(items, e, json)) == Sizes(items)
    decreases items
  {
    hide Encode, HasType, Accepts;
    var es := Elems(items, e, json);
    if Nested(items) {
      forall i | 0 <= i < |items| && items[i].VArray?
        ensures es[i].Sub? && Extents(es[i].items) == Sizes(items[i].items)
      {
        assert ItemTyped(items[i], e, true) && ItemAccepted(items[i], e, true);
        SameExtents(items[i].items, e, json);
      }
      forall i | 0 <= i < |items| && !items[i].VArray? ensures !es[i].Sub? {
        assert ItemTyped(items[i], e, true);
      }
    } else {
      forall i | 0 <= i < |items| ensures !es[i].Sub? {
        assert ItemTyped(items[i], e, false);
      }
    }
  }

  /**
   Every value of every nesting of arrays and composites is stored as what it is normally: NULL, empty and the word
   null apart.
   */
  lemma {:induction false} LiteralBack(v: Val, t: Type, json: Val -> seq<byte>)
    requires HasType(v, t)
    ensures Accepts(v, t) && Decode(Encode(v, t, json), t) == Normal(v, t)
    decreases t, 0, v
  {
    hide ReadArray, ReadRow, ArrayText, RowText, Extents, Sizes;
    match t
    case TextType =>
    case ArrayType(e) =>
      ElemsDecoded(v.items, e, json);
      var es := Elems(v.items, e, json);
      SameExtents(v.items, e, json);
      ArrayBack(es, []);
      SubStart(es, []);
      assert ArrayText(es) + [] == ArrayText(es);
    case RowType(fs) =>
      FieldsDecoded(v.fields, fs, json);
      var texts := Fields(v.fields, fs, json);
      RowBack(texts, []);
      assert RowText(texts) + [] == RowText(texts);
  }

  lemma {:induction false} ElemsDecoded(items: seq<Val>, e: Type, json: Val -> seq<byte>)
    requires ItemsTyped(items, e)
    ensures ItemsAccepted(items, e) && FromElems(Elems(items, e, json), e) == NormalItems(items, e, Nested(items))
    decreases e, 1, items, 1
  {
    hide ItemTyped, ItemAccepted, ElemOf, FromElem, NormalItem;
    forall i | 0 <= i < |items|
      ensures ItemAccepted(items[i], e, Nested(items))
      ensures FromElem(ElemOf(items[i], e, Nested(items), json), e) == NormalItem(items[i], e, Nested(items))
    {
      ElemDecoded(items[i], e, Nested(items), json);
    }
    FromEach(Elems(items, e, json), items, e, Nested(items));
  }

  lemma {:induction false} FromEach(es: seq<Elem>, items: seq<Val>, e: Type, nested: bool)
    requires |es| == |items| && forall i :: 0 <= i < |items| ==>
                                              ItemTyped(items[i], e, nested) && FromElem(es[i], e)
                                              == NormalItem(items[i], e, nested)
    ensures FromElems(es, e) == NormalItems(items, e, nested)
    decreases |es|
  {
    hide FromElem, NormalItem, ItemTyped;
    if es != [] {
      FromEach(es[1..], items[1..], e, nested);
    }
  }

  lemma {:induction false} ElemDecoded(v: Val, e: Type, nested: bool, json: Val -> seq<byte>)
    requires ItemTyped(v, e, nested)
    ensures ItemAccepted(v, e, nested) && FromElem(ElemOf(v, e, nested, json), e) == NormalItem(v, e, nested)
    decreases e, 1, v, 0
  {
    if !v.VNull? {
      if nested {
        ElemsDecoded(v.items, e, json);
      } else {
        LiteralBack(v, e, json);
      }
    }
  }

  lemma {:induction false} FieldsDecoded(m: map<string, Val>, fs: seq<Column>, json: Val -> seq<byte>)
    requires FieldsTyped(m, fs)
    ensures FieldsAccepted(m, fs) && FromFields(Fields(m, fs, json), fs) == NormalFields(m, fs)
    decreases fs, 1, 0
  {
    hide Decode, Encode, HasType, Accepts, Normal;
    if fs != [] {
      var v := FieldOf(m, fs[0].name);
      if !v.VNull? {
        LiteralBack(v, fs[0].type_, json);
      }
      FieldsDecoded(m, fs[1..], json);
      var texts := Fields(m, fs, json);
      assert texts[1..] == Fields(m, fs[1..], json);
    }
  }

  // ---- which values come back as they are -------------------------------------------------------------------------

  ghost function NamesOf(fs: seq<Column>): set<string> {
    set i | 0 <= i < |fs| :: fs[i].name
  }

  /** A composite's columns have different names. */
  ghost predicate WellNamed(t: Type)
    decreases t, 0
  {
    match t
    case TextType => true
    case ArrayType(e) => WellNamed(e)
    case RowType(fs) => AllWellNamed(fs)
  }

  ghost predicate AllWellNamed(fs: seq<Column>)
    decreases fs, 1
  {
    fs == [] || (WellNamed(fs[0].type_) && fs[0].name !in NamesOf(fs[1..]) && AllWellNamed(fs[1..]))
  }

  /**
   Rectangular arrays with no extent of zero but the empty one, and composites with exactly their columns, all the way
   down.
   */
  ghost predicate Exact(v: Val, t: Type)
    requires HasType(v, t)
    decreases t, 0, v
  {
    match t
    case TextType => true
    case ArrayType(e) =>
      assert ItemsTyped(v.items, e);
      v.items == [] || (Sizes(v.items).Some? && 0 !in Sizes(v.items).value && ItemsExact(v.items, e, Nested(v.items)))
    case RowType(fs) => v.fields.Keys == NamesOf(fs) && FieldsExact(v.fields, fs)
  }

  ghost predicate ItemsExact(items: seq<Val>, e: Type, nested: bool)
    requires forall i :: 0 <= i < |items| ==> ItemTyped(items[i], e, nested)
    decreases e, 1, items
  {
    items == [] || (ItemExact(items[0], e, nested) && ItemsExact(items[1..], e, nested))
  }

  ghost predicate ItemExact(v: Val, e: Type, nested: bool)
    requires ItemTyped(v, e, nested)
    decreases e, 1, v
  {
    if v.VNull? then true
    else if nested then
      assert ItemsTyped(v.items, e);
      ItemsExact(v.items, e, Nested(v.items))
    else Exact(v, e)
  }

  ghost predicate FieldsExact(m: map<string, Val>, fs: seq<Column>)
    requires FieldsTyped(m, fs)
    decreases fs, 1, 0
  {
    fs == [] || ((FieldOf(m, fs[0].name).VNull? || Exact(FieldOf(m, fs[0].name), fs[0].type_))
                 && FieldsExact(m, fs[1..]))
  }

  /** A value is stored as itself if and only if it is exact. */
  lemma {:induction false} NormalIff(v: Val, t: Type)
    requires HasType(v, t) && WellNamed(t)
    ensures Normal(v, t) == Some(v) <==> Exact(v, t)
    decreases t, 0, v
  {
    hide Sizes, NormalItems, ItemsExact;
    match t
    case TextType =>
    case ArrayType(e) =>
      assert ItemsTyped(v.items, e);
      NoElements();
      ItemsIff(v.items, e, Nested(v.items));
    case RowType(fs) => FieldsIff(v.fields, fs);
  }

  lemma NoElements()
    ensures Sizes([]) == Some([0])
  {
  }

  lemma {:induction false} ItemsIff(items: seq<Val>, e: Type, nested: bool)
    requires WellNamed(e) && forall i :: 0 <= i < |items| ==> ItemTyped(items[i], e, nested)
    ensures NormalItems(items, e, nested) == Some(items) <==> ItemsExact(items, e, nested)
    decreases e, 1, items
  {
    hide NormalItem, ItemExact, ItemTyped;
    if items != [] {
      ItemIff(items[0], e, nested);
      ItemsIff(items[1..], e, nested);
      assert items == [items[0]] + items[1..];
      var first, rest := NormalItem(items[0], e, nested), NormalItems(items[1..], e, nested);
      if first.Some? && rest.Some? && [first.value] + rest.value == items {
        assert rest.value == items[1..];
      }
    }
  }

  lemma {:induction false} ItemIff(v: Val, e: Type, nested: bool)
    requires WellNamed(e) && ItemTyped(v, e, nested)
    ensures NormalItem(v, e, nested) == Some(v) <==> ItemExact(v, e, nested)
    decreases e, 1, v
  {
    hide NormalItems, ItemsExact, Normal, Exact;
    if !v.VNull? {
      if nested {
        assert ItemsTyped(v.items, e);
        ItemsIff(v.items, e, Nested(v.items));
      } else {
        NormalIff(v, e);
      }
    }
  }

  ghost predicate SameFields(m: map<string, Val>, n: map<string, Val>, fs: seq<Column>) {
    forall i :: 0 <= i < |fs| ==> fs[i].name in n && n[fs[i].name] == FieldOf(m, fs[i].name)
  }

  lemma {:induction false} FieldsIff(m: map<string, Val>, fs: seq<Column>)
    requires FieldsTyped(m, fs) && AllWellNamed(fs)
    ensures NormalFields(m, fs).Some? ==> NormalFields(m, fs).value.Keys == NamesOf(fs)
    ensures NormalFields(m, fs).Some? && SameFields(m, NormalFields(m, fs).value, fs) <==> FieldsExact(m, fs)
    ensures m.Keys == NamesOf(fs) ==> (NormalFields(m, fs) == Some(m) <==> FieldsExact(m, fs))
    decreases fs, 1, 0
  {
    hide Normal, Exact, HasType;
    if fs != [] {
      var v := FieldOf(m, fs[0].name);
      if !v.VNull? {
        NormalIff(v, fs[0].type_);
      }
      FieldsIff(m, fs[1..]);
      FieldsStep(m, fs);
    }
    if m.Keys == NamesOf(fs) && NormalFields(m, fs).Some? {
      WholeRow(m, fs);
    }
  }

  lemma FieldsStep(m: map<string, Val>, fs: seq<Column>)
    requires FieldsTyped(m, fs) && AllWellNamed(fs) && fs != []
    requires NormalFields(m, fs[1..]).Some? ==> NormalFields(m, fs[1..]).value.Keys == NamesOf(fs[1..])
    ensures NormalFields(m, fs).Some? ==> NormalFields(m, fs).value.Keys == NamesOf(fs)
    ensures var v := FieldOf(m, fs[0].name);
            var first := if v.VNull? then Some(v) else Normal(v, fs[0].type_);
            NormalFields(m, fs).Some? && SameFields(m, NormalFields(m, fs).value, fs)
            <==> first == Some(v) && NormalFields(m, fs[1..]).Some?
                 && SameFields(m, NormalFields(m, fs[1..]).value, fs[1..])
  {
    hide Normal, HasType, WellNamed;
    assert NamesOf(fs) == {fs[0].name} + NamesOf(fs[1..]);
    var rest := NormalFields(m, fs[1..]);
    if NormalFields(m, fs).Some? {
      var n := NormalFields(m, fs).value;
      assert forall i :: 0 <= i < |fs[1..]| ==> fs[1..][i] == fs[i + 1] && fs[i + 1].name in NamesOf(fs[1..]);
      if SameFields(m, n, fs) {
        forall i | 0 <= i < |fs[1..]|
          ensures fs[1..][i].name in rest.value && rest.value[fs[1..][i].name] == FieldOf(m, fs[1..][i].name)
        {
          assert n[fs[i + 1].name] == FieldOf(m, fs[i + 1].name);
        }
      }
      if SameFields(m, rest.value, fs[1..]) {
        forall i | 1 <= i < |fs| ensures fs[i].name in n && (n[fs[i].name] == FieldOf(m, fs[i].name)) {
          assert fs[1..][i - 1] == fs[i];
        }
      }
    }
  }

  lemma WholeRow(m: map<string, Val>, fs: seq<Column>)
    requires FieldsTyped(m, fs) && m.Keys == NamesOf(fs) && NormalFields(m, fs).Some?
             && NormalFields(m, fs).value.Keys == NamesOf(fs)
    ensures NormalFields(m, fs) == Some(m) <==> SameFields(m, NormalFields(m, fs).value, fs)
  {
    hide NormalFields, FieldsTyped;
    var n := NormalFields(m, fs).value;
    if SameFields(m, n, fs) {
      forall name | name in m ensures n[name] == m[name] {
        var i :| 0 <= i < |fs| && fs[i].name == name;
      }
      assert n == m;
    }
  }
}
