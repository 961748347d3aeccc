/**
 The JSON reader of cborenc/json.go as a function of the text that is left, and its agreement with the
 grammar: it accepts exactly the texts of the grammar, and reads each as the tree it is the text of.
 */
module JsonParse {
  import opened Wrappers
  import opened Bytes
  import opened Utf8
  import opened Numeric
  import opened JsonText

  // ---- white space -------------------------------------------------------------------------------

  function SpaceLen(s: seq<byte>): (n: nat)
    ensures n <= |s| && AllSpace(s[..n]) && (n < |s| ==> !IsSpace(s[n]))
  {
    if s == [] || !IsSpace(s[0]) then 0 else 1 + SpaceLen(s[1..])
  }

  function AfterSpace(s: seq<byte>): (r: seq<byte>)
    ensures |r| <= |s|
  {
    s[SpaceLen(s)..]
  }

  predicate StartsWith(s: seq<byte>, c: byte) {
    s != [] && s[0] == c
  }

  lemma {:induction false} SpaceLenOf(w: seq<byte>, rest: seq<byte>)
    requires AllSpace(w) && (rest != [] ==> !IsSpace(rest[0]))
    ensures SpaceLen(w + rest) == |w| && (w + rest)[..|w|] == w && AfterSpace(w + rest) == rest
  {
    if w == [] {
      assert w + rest == rest;
    } else {
      SpaceLenOf(w[1..], rest);
      assert (w + rest)[1..] == w[1..] + rest;
    }
  }

  lemma SpaceSplit(s: seq<byte>)
    ensures s == s[..SpaceLen(s)] + AfterSpace(s)
  {
  }

  // ---- strings --------------------------------------------------------------------------------------

  /** The pieces of a string up to its closing quote. */
  function Pieces(s: seq<byte>): (g: Got<seq<piece>>)
    ensures g.Got? ==> |g.rest| < |s|
    decreases |s|
  {
    if s == [] then No
    else if s[0] == QUOTE then Got([], s[1..])
    else if s[0] < 0x20 then No
    else if s[0] != BACKSLASH then More(Raw(s[0]), Pieces(s[1..]))
    else if |s| < 2 then No
    else if IsEscape(s[1]) then More(Esc(s[1]), Pieces(s[2..]))
    else if s[1] == LETTER_U && |s| >= 6 && AllHex(s[2..6]) then More(Code(s[2..6]), Pieces(s[6..]))
    else No
  }

  function More(p: piece, g: Got<seq<piece>>): (r: Got<seq<piece>>)
    ensures r.Got? <==> g.Got?
    ensures r.Got? ==> r.rest == g.rest && r.value == [p] + g.value
  {
    if g.No? then No else Got([p] + g.value, g.rest)
  }

  lemma {:induction false} PiecesSound(s: seq<byte>)
    requires Pieces(s).Got?
    ensures s == StringTail(Pieces(s).value) + Pieces(s).rest
    decreases |s|
  {
    hide More;
    if s[0] == QUOTE {
      assert s == [QUOTE] + s[1..];
    } else if s[0] != BACKSLASH {
      PiecesSound(s[1..]);
      assert s == [s[0]] + s[1..];
    } else if IsEscape(s[1]) {
      PiecesSound(s[2..]);
      assert s == [BACKSLASH, s[1]] + s[2..];
    } else {
      PiecesSound(s[6..]);
      assert s == ([BACKSLASH, LETTER_U] + s[2..6]) + s[6..];
    }
  }

  lemma {:induction false} PiecesComplete(ps: seq<piece>, rest: seq<byte>)
    ensures Pieces(StringTail(ps) + rest) == Got(ps, rest)
  {
    hide IsEscape, AllHex, IsHex;
    if ps == [] {
      assert ([QUOTE] + rest)[1..] == rest;
    } else {
      PiecesComplete(ps[1..], rest);
      assert ps == [ps[0]] + ps[1..];
      assert StringTail(ps) + rest == PieceText(ps[0]) + (StringTail(ps[1..]) + rest);
      PieceFirst(ps[0], StringTail(ps[1..]) + rest);
    }
  }

  lemma PieceFirst(p: piece, rest: seq<byte>)
    ensures Pieces(PieceText(p) + rest) == More(p, Pieces(rest))
  {
    hide More;
    var s := PieceText(p) + rest;
    match p
    case Raw(c) => assert s[1..] == rest;
    case Esc(e) => assert s[2..] == rest;
    case Code(hex) => assert s[2..6] == hex && s[6..] == rest;
  }

  // ---- numbers -----------------------------------------------------------------------------------------

  /** The digits before the point: a single zero, or digits that do not start with one. */
  function WholePart(s: seq<byte>): (g: Got<seq<byte>>)
    ensures g.Got? ==> IsWhole(g.value) && s == g.value + g.rest
  {
    var n := if StartsWith(s, ZERO) then 1 else Run(s);
    if n == 0 then No else Got(s[..n], s[n..])
  }

  function FracPart(s: seq<byte>): (g: Got<seq<byte>>)
    ensures g.Got? ==> AllDigits(g.value) && s == FracText(g.value) + g.rest
  {
    if !StartsWith(s, POINT) then Got([], s)
    else
      var n := Run(s[1..]);
      if n == 0 then No else Got(s[1..][..n], s[1..][n..])
  }

  /** The exponent's mark and text; neither where there is no exponent. */
  function ExpPart(s: seq<byte>): (g: Got<(seq<byte>, seq<byte>)>)
    ensures g.Got? ==> s == (g.value.0 + g.value.1) + g.rest
    ensures g.Got? ==> (g.value == ([], []) || (IsMark(g.value.0) && IsExp(g.value.1)))
  {
    if s == [] || !IsExpMark(s[0]) then Got(([], []), s)
    else
      var t := s[1..];
      var n := ExpLen(t);
      if ExpDigits(t[..n]) == [] then No
      else if !IsInt64(ExpVal(t[..n])) then No
      else Got((s[..1], t[..n]), t[n..])
  }

  /** The length of a sign and the digits after it. */
  function ExpLen(t: seq<byte>): (n: nat)
    ensures n <= |t| && AllDigits(ExpDigits(t[..n]))
  {
    if t != [] && IsSign(t[..1]) then
      assert ExpDigits(t[..1 + Run(t[1..])]) == t[1..][..Run(t[1..])];
      1 + Run(t[1..])
    else
      assert Run(t) > 0 ==> t[..Run(t)][..1] == t[..1];
      Run(t)
  }

  function ParseNumeral(s: seq<byte>): (g: Got<numeral>)
    ensures g.Got? ==> |g.rest| < |s|
  {
    hide WholePart, FracPart, ExpPart;
    var neg := StartsWith(s, MINUS);
    var w := WholePart(if neg then s[1..] else s);
    if w.No? then No
    else
      var f := FracPart(w.rest);
      if f.No? then No
      else
        var e := ExpPart(f.rest);
        if e.No? then No
        else Got(Numeral(neg, w.value, f.value, e.value.0, e.value.1), e.rest)
  }

  lemma Assoc(a: seq<byte>, b: seq<byte>, c: seq<byte>)
    ensures a + (b + c) == (a + b) + c
  {
  }

  lemma NumeralSound(s: seq<byte>)
    requires ParseNumeral(s).Got?
    ensures s == NumeralText(ParseNumeral(s).value) + ParseNumeral(s).rest
  {
    hide WholePart, FracPart, ExpPart;
    var n, rest := ParseNumeral(s).value, ParseNumeral(s).rest;
    var tail := n.mark + n.exp;
    var body := if n.neg then s[1..] else s;
    assert s == SignText(n.neg) + body;
    assert body == n.whole + (FracText(n.frac) + (tail + rest));
    Assoc(FracText(n.frac), tail, rest);
    Assoc(n.whole, FracText(n.frac) + tail, rest);
    Assoc(SignText(n.neg), n.whole + (FracText(n.frac) + tail), rest);
  }

  /** What may follow a value: nothing, white space or a separator. */
  predicate Stops(rest: seq<byte>) {
    rest == [] || IsSpace(rest[0]) || rest[0] == COMMA || rest[0] == CLOSE_ARRAY || rest[0] == CLOSE_OBJECT
  }

  lemma WholeComplete(whole: seq<byte>, rest: seq<byte>)
    requires IsWhole(whole) && (rest != [] ==> !IsDigit(rest[0]))
    ensures WholePart(whole + rest) == Got(whole, rest)
  {
    hide Run;
    RunOf(whole, rest);
    assert (whole + rest)[..|whole|] == whole && (whole + rest)[|whole|..] == rest;
  }

  lemma FracComplete(frac: seq<byte>, rest: seq<byte>)
    requires AllDigits(frac) && (rest != [] ==> !IsDigit(rest[0]) && rest[0] != POINT)
    ensures FracPart(FracText(frac) + rest) == Got(frac, rest)
  {
    hide Run;
    var s := FracText(frac) + rest;
    if frac == [] {
      assert s == rest;
    } else {
      assert s[1..] == frac + rest;
      RunOf(frac, rest);
    }
  }

  lemma ExpComplete(mark: seq<byte>, exp: seq<byte>, rest: seq<byte>)
    requires (mark == [] && exp == []) || (IsMark(mark) && IsExp(exp))
    requires rest != [] ==> !IsDigit(rest[0]) && !IsExpMark(rest[0])
    ensures ExpPart((mark + exp) + rest) == Got((mark, exp), rest)
  {
    hide Run, ExpVal;
    var s := (mark + exp) + rest;
    if mark == [] {
      assert s == rest;
    } else {
      var t := exp + rest;
      assert s[1..] == t && s[..1] == mark;
      if IsSign(exp[..1]) {
        assert t[1..] == exp[1..] + rest && t[..1] == exp[..1];
        RunOf(exp[1..], rest);
      } else {
        assert t[..1] == exp[..1];
        RunOf(exp, rest);
      }
      assert t[..|exp|] == exp && t[|exp|..] == rest;
    }
  }

  lemma NumeralComplete(n: numeral, rest: seq<byte>)
    requires Stops(rest)
    ensures ParseNumeral(NumeralText(n) + rest) == Got(n, rest)
  {
    hide WholePart, FracPart, ExpPart, IsExp;
    var tail := (n.mark + n.exp) + rest;
    var after := FracText(n.frac) + tail;
    var body := n.whole + after;
    var s := NumeralText(n) + rest;
    Assoc(FracText(n.frac), n.mark + n.exp, rest);
    Assoc(n.whole, FracText(n.frac) + (n.mark + n.exp), rest);
    Assoc(SignText(n.neg), n.whole + (FracText(n.frac) + (n.mark + n.exp)), rest);
    assert s == SignText(n.neg) + body;
    assert n.neg ==> s[1..] == body;
    assert !n.neg ==> s == body && s[0] == n.whole[0];
    assert tail != [] ==> tail[0] == (if n.mark != [] then n.mark[0] else rest[0]);
    assert after != [] ==> after[0] == (if n.frac != [] then POINT else tail[0]);
    WholeComplete(n.whole, after);
    FracComplete(n.frac, tail);
    ExpComplete(n.mark, n.exp, rest);
  }

  // ---- values --------------------------------------------------------------------------------------------

  function Literal(s: seq<byte>, word: seq<byte>, j: Json): (g: Got<Json>)
    requires word != []
    ensures g.Got? ==> |g.rest| < |s|
  {
    if |s| < |word| || s[..|word|] != word then No else Got(j, s[|word|..])
  }

  /** A value that starts at the first byte of `s`. */
  function JsonValue(s: seq<byte>, depth: nat): (g: Got<Json>)
    ensures g.Got? ==> |g.rest| < |s|
    decreases |s|, 0
  {
    if s == [] then No
    else if s[0] == OPEN_OBJECT then ObjectValue(s, depth)
    else if s[0] == OPEN_ARRAY then ArrayValue(s, depth)
    else if s[0] == QUOTE then
      var g := Pieces(s[1..]);
      if g.No? then No else Got(JString(g.value), g.rest)
    else if s[0] == MINUS || IsDigit(s[0]) then
      var g := ParseNumeral(s);
      if g.No? then No else Got(JNumber(g.value), g.rest)
    else if s[0] == 0x74 then Literal(s, TRUE, JBool(true))
    else if s[0] == 0x66 then Literal(s, FALSE, JBool(false))
    else if s[0] == 0x6e then Literal(s, NULL, JNull)
    else No
  }

  function ArrayValue(s: seq<byte>, depth: nat): (g: Got<Json>)
    requires s != []
    ensures g.Got? ==> |g.rest| < |s|
    decreases |s| - 1, 3
  {
    var t := s[1..];
    if depth >= MAX_JSON_DEPTH then No
    else if StartsWith(AfterSpace(t), CLOSE_ARRAY) then Got(JArray(t[..SpaceLen(t)], []), AfterSpace(t)[1..])
    else
      var g := Items(t, depth + 1);
      if g.No? then No else Got(JArray([], g.value), g.rest)
  }

  function ObjectValue(s: seq<byte>, depth: nat): (g: Got<Json>)
    requires s != []
    ensures g.Got? ==> |g.rest| < |s|
    decreases |s| - 1, 3
  {
    var t := s[1..];
    if depth >= MAX_JSON_DEPTH then No
    else if StartsWith(AfterSpace(t), CLOSE_OBJECT) then Got(JObject(t[..SpaceLen(t)], []), AfterSpace(t)[1..])
    else
      var g := Members(t, depth + 1);
      if g.No? then No else Got(JObject([], g.value), g.rest)
  }

  /** A value with the white space before and after it. */
  function Spaced(s: seq<byte>, depth: nat): (g: Got<Element>)
    ensures g.Got? ==> |g.rest| < |s|
    decreases |s|, 1
  {
    var v := JsonValue(AfterSpace(s), depth);
    if v.No? then No else Got(Element(s[..SpaceLen(s)], v.value, v.rest[..SpaceLen(v.rest)]), AfterSpace(v.rest))
  }

  /** The elements of an array up to its closing bracket. */
  function Items(s: seq<byte>, depth: nat): (g: Got<seq<Element>>)
    ensures g.Got? ==> |g.rest| < |s| && g.value != []
    decreases |s|, 2
  {
    var e := Spaced(s, depth);
    if e.No? then No
    else if StartsWith(e.rest, CLOSE_ARRAY) then Got([e.value], e.rest[1..])
    else if StartsWith(e.rest, COMMA) then
      var g := Items(e.rest[1..], depth);
      if g.No? then No else Got([e.value] + g.value, g.rest)
    else No
  }

  /** A key and its colon: white space, the key, white space. */
  function Key(s: seq<byte>): (g: Got<(seq<byte>, seq<piece>, seq<byte>)>)
    ensures g.Got? ==> |g.rest| < |s|
  {
    var t := AfterSpace(s);
    if !StartsWith(t, QUOTE) then No
    else
      var k := Pieces(t[1..]);
      if k.No? || !StartsWith(AfterSpace(k.rest), COLON) then No
      else Got((s[..SpaceLen(s)], k.value, k.rest[..SpaceLen(k.rest)]), AfterSpace(k.rest)[1..])
  }

  function Members(s: seq<byte>, depth: nat): (g: Got<seq<Member>>)
    ensures g.Got? ==> |g.rest| < |s| && g.value != []
    decreases |s|, 2
  {
    var k := Key(s);
    if k.No? then No
    else
      var e := Spaced(k.rest, depth);
      if e.No? then No
      else
        var m := Member(k.value.0, k.value.1, k.value.2, e.value);
        if StartsWith(e.rest, CLOSE_OBJECT) then Got([m], e.rest[1..])
        else if StartsWith(e.rest, COMMA) then
          var g := Members(e.rest[1..], depth);
          if g.No? then No else Got([m] + g.value, g.rest)
        else No
  }

  /** A document: one value with white space around it. */
  function Document(s: seq<byte>): Got<Element> {
    var e := Spaced(s, 0);
    if e.Got? && e.rest == [] then e else No
  }

  // ---- what is read is in the grammar ---------------------------------------------------------------------

  lemma {:induction false} ValueSound(s: seq<byte>, depth: nat)
    requires JsonValue(s, depth).Got?
    ensures var g := JsonValue(s, depth); s == TextOf(g.value) + g.rest && Nests(g.value, depth)
    decreases |s|, 0
  {
    hide Items, Members, Pieces, ParseNumeral, AfterSpace, ItemsText, MembersText, NumeralText, NestsAll, NestsMembers;
    if s[0] == OPEN_OBJECT {
      ObjectSound(s, depth);
    } else if s[0] == OPEN_ARRAY {
      ArraySound(s, depth);
    } else if s[0] == QUOTE {
      PiecesSound(s[1..]);
      assert s == [QUOTE] + s[1..];
    } else if s[0] == MINUS || IsDigit(s[0]) {
      NumeralSound(s);
    }
  }

  lemma {:induction false} ArraySound(s: seq<byte>, depth: nat)
    requires s != [] && s[0] == OPEN_ARRAY && ArrayValue(s, depth).Got?
    ensures var g := ArrayValue(s, depth); s == TextOf(g.value) + g.rest && Nests(g.value, depth)
    decreases |s| - 1, 3
  {
    hide Items, AfterSpace, SpaceLen, ItemsText, NestsAll;
    var t := s[1..];
    assert s == [OPEN_ARRAY] + t;
    if StartsWith(AfterSpace(t), CLOSE_ARRAY) {
      Closed(t, CLOSE_ARRAY);
      Assoc([OPEN_ARRAY], t[..SpaceLen(t)] + [CLOSE_ARRAY], AfterSpace(t)[1..]);
      NestsNone(depth + 1);
    } else {
      var g := Items(t, depth + 1);
      ItemsSound(t, depth + 1);
      Assoc([OPEN_ARRAY], ItemsText(g.value), g.rest);
    }
  }

  lemma Closed(t: seq<byte>, close: byte)
    requires StartsWith(AfterSpace(t), close)
    ensures t == (t[..SpaceLen(t)] + [close]) + AfterSpace(t)[1..]
  {
  }

  lemma NestsNone(depth: nat)
    ensures NestsAll([], depth) && NestsMembers([], depth)
  {
  }

  lemma {:induction false} ObjectSound(s: seq<byte>, depth: nat)
    requires s != [] && s[0] == OPEN_OBJECT && ObjectValue(s, depth).Got?
    ensures var g := ObjectValue(s, depth); s == TextOf(g.value) + g.rest && Nests(g.value, depth)
    decreases |s| - 1, 3
  {
    hide Members, AfterSpace, SpaceLen, MembersText, NestsMembers;
    var t := s[1..];
    assert s == [OPEN_OBJECT] + t;
    if StartsWith(AfterSpace(t), CLOSE_OBJECT) {
      Closed(t, CLOSE_OBJECT);
      Assoc([OPEN_OBJECT], t[..SpaceLen(t)] + [CLOSE_OBJECT], AfterSpace(t)[1..]);
      NestsNone(depth + 1);
    } else {
      var g := Members(t, depth + 1);
      MembersSound(t, depth + 1);
      Assoc([OPEN_OBJECT], MembersText(g.value), g.rest);
    }
  }

  lemma {:induction false} SpacedSound(s: seq<byte>, depth: nat)
    requires Spaced(s, depth).Got?
    ensures var g := Spaced(s, depth);
            s == g.value.pre + (TextOf(g.value.value) + (g.value.post + g.rest)) && NestsElement(g.value, depth)
    decreases |s|, 1
  {
    hide JsonValue, AfterSpace, TextOf, Nests;
    var v := JsonValue(AfterSpace(s), depth);
    ValueSound(AfterSpace(s), depth);
    SpaceSplit(s);
    SpaceSplit(v.rest);
  }

  lemma {:induction false} ItemsSound(s: seq<byte>, depth: nat)
    requires Items(s, depth).Got?
    ensures var g := Items(s, depth); s == ItemsText(g.value) + g.rest && NestsAll(g.value, depth)
    decreases |s|, 2
  {
    hide Spaced, TextOf, NestsElement;
    var e := Spaced(s, depth);
    SpacedSound(s, depth);
    var g := Items(s, depth);
    if StartsWith(e.rest, CLOSE_ARRAY) {
      assert e.rest == [CLOSE_ARRAY] + e.rest[1..];
      ItemsCons(g.value, [CLOSE_ARRAY], e.rest[1..]);
    } else {
      ItemsSound(e.rest[1..], depth);
      var more := Items(e.rest[1..], depth);
      assert e.rest == ([COMMA] + ItemsText(more.value)) + more.rest;
      assert g.value[1..] == more.value;
      ItemsCons(g.value, [COMMA] + ItemsText(more.value), more.rest);
    }
  }

  lemma ItemsCons(items: seq<Element>, more: seq<byte>, rest: seq<byte>)
    requires items != [] && more == (if |items| == 1 then [CLOSE_ARRAY] else [COMMA] + ItemsText(items[1..]))
    ensures items[0].pre + (TextOf(items[0].value) + (items[0].post + (more + rest))) == ItemsText(items) + rest
  {
    hide TextOf;
    var e := items[0];
    Assoc(e.post, more, rest);
    Assoc(TextOf(e.value), e.post + more, rest);
    Assoc(e.pre, TextOf(e.value) + (e.post + more), rest);
  }

  lemma KeySound(s: seq<byte>)
    requires Key(s).Got?
    ensures var g := Key(s);
            && s == g.value.0 + ([QUOTE] + (StringTail(g.value.1) + (g.value.2 + ([COLON] + g.rest))))
            && AllSpace(g.value.0) && AllSpace(g.value.2)
  {
    hide Pieces, AfterSpace, StringTail;
    var t := AfterSpace(s);
    var k := Pieces(t[1..]);
    SpaceSplit(s);
    assert t == [QUOTE] + t[1..];
    PiecesSound(t[1..]);
    SpaceSplit(k.rest);
    assert AfterSpace(k.rest) == [COLON] + AfterSpace(k.rest)[1..];
  }

  lemma {:induction false} MembersSound(s: seq<byte>, depth: nat)
    requires Members(s, depth).Got?
    ensures var g := Members(s, depth); s == MembersText(g.value) + g.rest && NestsMembers(g.value, depth)
    decreases |s|, 2
  {
    hide Spaced, TextOf, NestsElement, Key, StringTail, AllSpace;
    var k := Key(s);
    KeySound(s);
    var e := Spaced(k.rest, depth);
    SpacedSound(k.rest, depth);
    var g := Members(s, depth);
    if StartsWith(e.rest, CLOSE_OBJECT) {
      assert e.rest == [CLOSE_OBJECT] + e.rest[1..];
      MembersCons(g.value, [CLOSE_OBJECT], e.rest[1..], s, k.rest);
    } else {
      MembersSound(e.rest[1..], depth);
      var more := Members(e.rest[1..], depth);
      assert e.rest == ([COMMA] + MembersText(more.value)) + more.rest;
      assert g.value[1..] == more.value;
      MembersCons(g.value, [COMMA] + MembersText(more.value), more.rest, s, k.rest);
    }
  }

  /** The text of members, from the text of the first and of what follows it. */
  lemma MembersCons(ms: seq<Member>, more: seq<byte>, rest: seq<byte>, s: seq<byte>, r: seq<byte>)
    requires ms != [] && more == (if |ms| == 1 then [CLOSE_OBJECT] else [COMMA] + MembersText(ms[1..]))
    requires s == ms[0].pre + ([QUOTE] + (StringTail(ms[0].key) + (ms[0].post + ([COLON] + r))))
    requires r == ms[0].elem.pre + (TextOf(ms[0].elem.value) + (ms[0].elem.post + (more + rest)))
    ensures s == MembersText(ms) + rest
  {
    hide TextOf, StringTail;
    var a := ms[0].elem.post + more;
    Assoc(ms[0].elem.post, more, rest);
    var b := TextOf(ms[0].elem.value) + a;
    Assoc(TextOf(ms[0].elem.value), a, rest);
    var c := ms[0].elem.pre + b;
    Assoc(ms[0].elem.pre, b, rest);
    var d := [COLON] + c;
    Assoc([COLON], c, rest);
    var e := ms[0].post + d;
    Assoc(ms[0].post, d, rest);
    var f := StringTail(ms[0].key) + e;
    Assoc(StringTail(ms[0].key), e, rest);
    var g := [QUOTE] + f;
    Assoc([QUOTE], f, rest);
    Assoc(ms[0].pre, g, rest);
  }

  // ---- and everything in the grammar is read ------------------------------------------------------------------

  lemma TextStart(j: Json)
    ensures TextOf(j) != [] && !IsSpace(TextOf(j)[0])
    ensures TextOf(j)[0] != CLOSE_ARRAY && TextOf(j)[0] != CLOSE_OBJECT
  {
    hide ItemsText, MembersText;
    if j.JNumber? {
      assert TextOf(j)[0] == if j.num.neg then MINUS else j.num.whole[0];
    }
  }

  lemma {:induction false} ValueComplete(j: Json, rest: seq<byte>, depth: nat)
    requires Nests(j, depth) && Stops(rest)
    ensures JsonValue(TextOf(j) + rest, depth) == Got(j, rest)
    decreases j, 1
  {
    hide ArrayValue, ObjectValue, Pieces, ParseNumeral, ItemsText, MembersText, NumeralText, NestsAll, NestsMembers,
         Stops;
    var s := TextOf(j) + rest;
    match j
    case JNull => assert s[..4] == NULL && s[4..] == rest;
    case JBool(b) =>
      if b {
        assert s[..4] == TRUE && s[4..] == rest;
      } else {
        assert s[..5] == FALSE && s[5..] == rest;
      }
    case JNumber(num) =>
      NumeralComplete(num, rest);
      NumeralStart(num);
    case JString(str) =>
      assert s[1..] == StringTail(str) + rest;
      PiecesComplete(str, rest);
    case JArray(pad, items) => ArrayComplete(j, rest, depth);
    case JObject(pad, members) => ObjectComplete(j, rest, depth);
  }

  lemma NumeralStart(n: numeral)
    ensures NumeralText(n) != [] && (NumeralText(n)[0] == MINUS || IsDigit(NumeralText(n)[0]))
  {
    assert NumeralText(n)[0] == if n.neg then MINUS else n.whole[0];
  }

  lemma {:induction false} ArrayComplete(j: Json, rest: seq<byte>, depth: nat)
    requires j.JArray? && Nests(j, depth)
    ensures ArrayValue(TextOf(j) + rest, depth) == Got(j, rest)
    decreases j, 0
  {
    hide Items, AfterSpace, ItemsText, NestsAll;
    var s := TextOf(j) + rest;
    if j.items == [] {
      var close := [CLOSE_ARRAY] + rest;
      assert s[1..] == j.pad + close;
      SpaceLenOf(j.pad, close);
      assert close[1..] == rest;
    } else {
      assert s[1..] == ItemsText(j.items) + rest;
      ItemsComplete(j.items, rest, depth + 1);
      ItemsStart(j.items, rest, depth + 1);
    }
  }

  /** A non-empty array does not look like an empty one. */
  lemma ItemsStart(items: seq<Element>, rest: seq<byte>, depth: nat)
    requires items != [] && NestsAll(items, depth)
    ensures !StartsWith(AfterSpace(ItemsText(items) + rest), CLOSE_ARRAY)
  {
    hide TextOf, AfterSpace;
    var tail := items[0].post + if |items| == 1 then [CLOSE_ARRAY] else [COMMA] + ItemsText(items[1..]);
    assert ItemsText(items) + rest == items[0].pre + (TextOf(items[0].value) + (tail + rest));
    TextStart(items[0].value);
    SpaceLenOf(items[0].pre, TextOf(items[0].value) + (tail + rest));
  }

  lemma {:induction false} ObjectComplete(j: Json, rest: seq<byte>, depth: nat)
    requires j.JObject? && Nests(j, depth)
    ensures ObjectValue(TextOf(j) + rest, depth) == Got(j, rest)
    decreases j, 0
  {
    hide Members, AfterSpace, MembersText, NestsMembers;
    var s := TextOf(j) + rest;
    if j.members == [] {
      var close := [CLOSE_OBJECT] + rest;
      assert s[1..] == j.pad + close;
      SpaceLenOf(j.pad, close);
      assert close[1..] == rest;
    } else {
      assert s[1..] == MembersText(j.members) + rest;
      MembersComplete(j.members, rest, depth + 1);
      MembersStart(j.members, rest, depth + 1);
    }
  }

  lemma MembersStart(members: seq<Member>, rest: seq<byte>, depth: nat)
    requires members != [] && NestsMembers(members, depth)
    ensures !StartsWith(AfterSpace(MembersText(members) + rest), CLOSE_OBJECT)
  {
    hide TextOf, AfterSpace, StringTail, NestsElement;
    var m := members[0];
    var tail := StringTail(m.key) + (m.post + ([COLON] + (m.elem.pre + (TextOf(m.elem.value) + (m.elem.post
                + if |members| == 1 then [CLOSE_OBJECT] else [COMMA] + MembersText(members[1..]))))));
    assert MembersText(members) + rest == m.pre + ([QUOTE] + (tail + rest));
    SpaceLenOf(m.pre, [QUOTE] + (tail + rest));
  }

  lemma {:induction false} SpacedComplete(e: Element, rest: seq<byte>, depth: nat)
    requires NestsElement(e, depth) && Stops(rest) && (rest != [] ==> !IsSpace(rest[0]))
    ensures Spaced(e.pre + (TextOf(e.value) + (e.post + rest)), depth) == Got(e, rest)
    decreases e, 1
  {
    hide JsonValue, AfterSpace, TextOf, Nests;
    TextStart(e.value);
    var tail := e.post + rest;
    assert tail != [] ==> tail[0] == if e.post != [] then e.post[0] else rest[0];
    SpaceLenOf(e.pre, TextOf(e.value) + tail);
    ValueComplete(e.value, tail, depth);
    SpaceLenOf(e.post, rest);
  }

  lemma {:induction false} ItemsComplete(items: seq<Element>, rest: seq<byte>, depth: nat)
    requires items != [] && NestsAll(items, depth)
    ensures Items(ItemsText(items) + rest, depth) == Got(items, rest)
    decreases items, 2
  {
    hide Spaced, TextOf, NestsElement;
    var e := items[0];
    if |items| == 1 {
      var after := [CLOSE_ARRAY] + rest;
      ItemsCons(items, [CLOSE_ARRAY], rest);
      SpacedComplete(e, after, depth);
      assert items == [e] && after[1..] == rest;
    } else {
      var after := [COMMA] + (ItemsText(items[1..]) + rest);
      Assoc([COMMA], ItemsText(items[1..]), rest);
      ItemsCons(items, [COMMA] + ItemsText(items[1..]), rest);
      SpacedComplete(e, after, depth);
      ItemsComplete(items[1..], rest, depth);
      assert items == [e] + items[1..] && after[1..] == ItemsText(items[1..]) + rest;
    }
  }

  lemma KeyComplete(pre: seq<byte>, key: seq<piece>, post: seq<byte>, rest: seq<byte>)
    requires AllSpace(pre) && AllSpace(post)
    ensures Key(pre + ([QUOTE] + (StringTail(key) + (post + ([COLON] + rest))))) == Got((pre, key, post), rest)
  {
    hide Pieces, AfterSpace, StringTail;
    var colon := [COLON] + rest;
    var tail := StringTail(key) + (post + colon);
    SpaceLenOf(pre, [QUOTE] + tail);
    assert ([QUOTE] + tail)[1..] == tail && colon[1..] == rest;
    PiecesComplete(key, post + colon);
    SpaceLenOf(post, colon);
  }

  lemma SeparatorStops(after: seq<byte>)
    requires StartsWith(after, CLOSE_OBJECT) || StartsWith(after, CLOSE_ARRAY) || StartsWith(after, COMMA)
    ensures Stops(after) && !IsSpace(after[0])
  {
  }

  /** Reading one member and what separates it from the next. */
  lemma MembersNext(s: seq<byte>, m: Member, after: seq<byte>, depth: nat)
    requires Key(s).Got? && Key(s).value == (m.pre, m.key, m.post) && Spaced(Key(s).rest, depth) == Got(m.elem, after)
    ensures StartsWith(after, CLOSE_OBJECT) ==> Members(s, depth) == Got([m], after[1..])
    ensures StartsWith(after, COMMA) && Members(after[1..], depth).Got?
            ==> Members(s, depth) == Got([m] + Members(after[1..], depth).value, Members(after[1..], depth).rest)
  {
    hide Key, Spaced;
  }

  lemma {:induction false} MembersComplete(members: seq<Member>, rest: seq<byte>, depth: nat)
    requires members != [] && NestsMembers(members, depth)
    ensures Members(MembersText(members) + rest, depth) == Got(members, rest)
    decreases members, 2
  {
    hide Spaced, TextOf, NestsElement, Key, StringTail, AllSpace, Members, MembersText, Stops;
    var m := members[0];
    var more := if |members| == 1 then [CLOSE_OBJECT] else [COMMA] + MembersText(members[1..]);
    var after := more + rest;
    var r := m.elem.pre + (TextOf(m.elem.value) + (m.elem.post + after));
    var s := m.pre + ([QUOTE] + (StringTail(m.key) + (m.post + ([COLON] + r))));
    MembersCons(members, more, rest, s, r);
    KeyComplete(m.pre, m.key, m.post, r);
    SeparatorStops(after);
    SpacedComplete(m.elem, after, depth);
    MembersNext(s, m, after, depth);
    if |members| == 1 {
      assert members == [m] && after[1..] == rest;
    } else {
      MembersComplete(members[1..], rest, depth);
      assert members == [m] + members[1..] && after[1..] == MembersText(members[1..]) + rest;
    }
  }

  // ---- the language ---------------------------------------------------------------------------------------------

  /** A document is accepted if and only if it is the text of a value of the grammar, and then read as that value. */
  lemma DocumentIff(s: seq<byte>, e: Element)
    ensures Document(s) == Got(e, []) <==> NestsElement(e, 0) && s == e.pre + (TextOf(e.value) + e.post)
  {
    hide Spaced, TextOf, NestsElement;
    if Document(s) == Got(e, []) {
      SpacedSound(s, 0);
      assert e.post + [] == e.post;
    }
    if NestsElement(e, 0) && s == e.pre + (TextOf(e.value) + e.post) {
      SpacedComplete(e, [], 0);
      assert e.post + [] == e.post;
    }
  }

  /** No text has two readings. */
  lemma Unambiguous(d: Element, e: Element)
    requires NestsElement(d, 0) && NestsElement(e, 0)
    requires d.pre + (TextOf(d.value) + d.post) == e.pre + (TextOf(e.value) + e.post)
    ensures d == e
  {
    hide Document, TextOf, NestsElement;
    DocumentIff(d.pre + (TextOf(d.value) + d.post), d);
    DocumentIff(d.pre + (TextOf(d.value) + d.post), e);
  }
}
