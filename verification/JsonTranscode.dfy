/**
 The streaming transcoder of cborenc/json.go: it reads JSON text once, from left to right, and appends the
 CBOR of each value as it goes, building no tree.
 */
module JsonTranscode {
  import opened Wrappers
  import opened Bytes
  import opened Utf8
  import opened Numeric
  import opened CborItem
  import opened CborEncode
  import opened CborDoc
  import opened JsonText
  import opened JsonParse

  // ---- the bytes of a value ----------------------------------------------------------------------

  /** Two's complement subtraction of 64-bit integers keeps the remainder in range. */
  function Wrap64(n: int): (r: int)
    ensures IsInt64(r) && (IsInt64(n) ==> r == n)
  {
    (n + TWO63) % TWO64 - TWO63
  }

  function MantissaText(n: numeral): (s: seq<byte>)
    ensures IsIntText(s)
  {
    var s := SignText(n.neg) + (n.whole + n.frac);
    assert Unsigned(s) == n.whole + n.frac;
    s
  }

  function ExponentOf(n: numeral): int {
    if n.mark == [] then 0 else ExpVal(n.exp)
  }

  /** A number without a fraction or an exponent is an integer, any other a decimal fraction. */
  predicate IsInteger(n: numeral) {
    n.frac == [] && n.mark == []
  }

  function NumeralBytes(n: numeral): seq<byte> {
    if IsInteger(n) then IntegerBytes(IntVal(MantissaText(n)))
    else DecimalBytes(IntVal(MantissaText(n)), Wrap64(ExponentOf(n) - |n.frac|))
  }

  function JsonBytes(j: Json): seq<byte>
    decreases j, 0
  {
    match j
    case JNull => [0xf6]
    case JBool(b) => [if b then 0xf5 else 0xf4]
    case JNumber(num) => NumeralBytes(num)
    case JString(str) => TextBytes(StringValue(str))
    case JArray(_, items) => [0x9f] + (ItemsBytes(items) + [BREAK])
    case JObject(_, members) => [0xbf] + (MembersBytes(members) + [BREAK])
  }

  function ItemsBytes(items: seq<Element>): seq<byte>
    decreases items, 0
  {
    if items == [] then [] else JsonBytes(items[0].value) + ItemsBytes(items[1..])
  }

  function MembersBytes(members: seq<Member>): seq<byte>
    decreases members, 0
  {
    if members == [] then []
    else TextBytes(StringValue(members[0].key)) + (JsonBytes(members[0].elem.value) + MembersBytes(members[1..]))
  }

  // ---- what is appended for a text ------------------------------------------------------------------

  function Prepend(b: seq<byte>, g: Got<seq<byte>>): Got<seq<byte>> {
    if g.No? then No else Got(b + g.value, g.rest)
  }

  function ValueOut(s: seq<byte>, depth: nat): Got<seq<byte>> {
    var v := JsonValue(AfterSpace(s), depth);
    if v.No? then No else Got(JsonBytes(v.value), v.rest)
  }

  function ItemsOut(s: seq<byte>, depth: nat): Got<seq<byte>> {
    var g := Items(s, depth);
    if g.No? then No else Got(ItemsBytes(g.value), g.rest)
  }

  function MembersOut(s: seq<byte>, depth: nat): Got<seq<byte>> {
    var g := Members(s, depth);
    if g.No? then No else Got(MembersBytes(g.value), g.rest)
  }

  function KeyOut(s: seq<byte>): Got<seq<byte>> {
    var k := Key(s);
    if k.No? then No else Got(TextBytes(StringValue(k.value.1)), k.rest)
  }

  function PiecesOut(s: seq<byte>): Got<seq<byte>> {
    var g := Pieces(s);
    if g.No? then No else Got(Resolve(g.value), g.rest)
  }

  lemma {:induction false} SpaceStep(s: seq<byte>)
    requires s != [] && IsSpace(s[0])
    ensures AfterSpace(s) == AfterSpace(s[1..])
  {
  }

  lemma SpaceOnce(s: seq<byte>)
    ensures AfterSpace(AfterSpace(s)) == AfterSpace(s)
    ensures AfterSpace(s) != [] ==> !IsSpace(AfterSpace(s)[0])
  {
  }

  lemma ItemsOutStep(s: seq<byte>, depth: nat)
    ensures ItemsOut(s, depth)
            == var v := ValueOut(s, depth);
               if v.No? then No
               else
                 var r := AfterSpace(v.rest);
                 if StartsWith(r, CLOSE_ARRAY) then Got(v.value, r[1..])
                 else if StartsWith(r, COMMA) then Prepend(v.value, ItemsOut(r[1..], depth))
                 else No
  {
    hide AfterSpace, JsonValue, JsonBytes;
    var e := Spaced(s, depth);
    if e.Got? {
      if StartsWith(e.rest, CLOSE_ARRAY) {
        OneItem(e.value);
      } else if StartsWith(e.rest, COMMA) {
        var g := Items(e.rest[1..], depth);
        if g.Got? {
          assert ([e.value] + g.value)[1..] == g.value;
        }
      }
    }
  }

  lemma OneItem(e: Element)
    ensures ItemsBytes([e]) == JsonBytes(e.value)
  {
    assert ItemsBytes([e][1..]) == [];
  }

  lemma OneMember(m: Member)
    ensures MembersBytes([m]) == TextBytes(StringValue(m.key)) + JsonBytes(m.elem.value)
  {
    assert MembersBytes([m][1..]) == [];
    assert JsonBytes(m.elem.value) + [] == JsonBytes(m.elem.value);
  }

  lemma MembersOutStep(s: seq<byte>, depth: nat)
    ensures MembersOut(s, depth)
            == var k := KeyOut(s);
               if k.No? then No
               else
                 var v := ValueOut(k.rest, depth);
                 if v.No? then No
                 else
                   var r := AfterSpace(v.rest);
                   if StartsWith(r, CLOSE_OBJECT) then Got(k.value + v.value, r[1..])
                   else if StartsWith(r, COMMA) then Prepend(k.value + v.value, MembersOut(r[1..], depth))
                   else No
  {
    hide AfterSpace, JsonValue, JsonBytes, TextBytes, StringValue, Key;
    var k := Key(s);
    if k.Got? {
      var e := Spaced(k.rest, depth);
      if e.Got? {
        var m := Member(k.value.0, k.value.1, k.value.2, e.value);
        if StartsWith(e.rest, CLOSE_OBJECT) {
          OneMember(m);
        } else if StartsWith(e.rest, COMMA) {
          var g := Members(e.rest[1..], depth);
          if g.Got? {
            assert ([m] + g.value)[1..] == g.value;
            Assoc(TextBytes(StringValue(m.key)), JsonBytes(m.elem.value), MembersBytes(g.value));
          }
        }
      }
    }
  }

  /** One round of the loop over members: what becomes of the whole, given what was done before. */
  lemma MembersRound(done: seq<byte>, s: seq<byte>, depth: nat)
    ensures var whole := Prepend(done, MembersOut(s, depth));
            var k := KeyOut(s);
            && (k.No? ==> whole.No?)
            && (k.Got? ==>
                  var v := ValueOut(k.rest, depth);
                  && (v.No? ==> whole.No?)
                  && (v.Got? ==>
                        var r := AfterSpace(v.rest);
                        whole == if StartsWith(r, CLOSE_OBJECT) then Got(done + (k.value + v.value), r[1..])
                                 else if StartsWith(r, COMMA) then Prepend(done + (k.value + v.value),
                                                                           MembersOut(r[1..], depth))
                                 else No))
  {
    hide AfterSpace, MembersOut, KeyOut, ValueOut;
    MembersOutStep(s, depth);
    var k := KeyOut(s);
    if k.Got? {
      var v := ValueOut(k.rest, depth);
      if v.Got? && StartsWith(AfterSpace(v.rest), COMMA) {
        PrependTwice(done, k.value + v.value, MembersOut(AfterSpace(v.rest)[1..], depth));
      }
    }
  }

  /** Skipping white space first does not change what is appended. */
  lemma SkippedItems(s: seq<byte>, depth: nat)
    ensures ItemsOut(AfterSpace(s), depth) == ItemsOut(s, depth)
    ensures MembersOut(AfterSpace(s), depth) == MembersOut(s, depth)
  {
    hide ItemsOut, MembersOut, JsonValue, AfterSpace, Key;
    ItemsOutStep(s, depth);
    ItemsOutStep(AfterSpace(s), depth);
    MembersOutStep(s, depth);
    MembersOutStep(AfterSpace(s), depth);
    SpaceOnce(s);
    SkippedKey(s);
  }

  lemma SkippedKey(s: seq<byte>)
    ensures KeyOut(AfterSpace(s)) == KeyOut(s)
  {
    hide AfterSpace, Pieces, StringValue, TextBytes;
    SpaceOnce(s);
  }

  // ---- strings, piece by piece ------------------------------------------------------------------------

  lemma RawStep(s: seq<byte>)
    requires s != [] && IsRaw(s[0])
    ensures PiecesOut(s) == Prepend([s[0]], PiecesOut(s[1..]))
  {
    var g := Pieces(s[1..]);
    if g.Got? {
      assert ([Raw(s[0])] + g.value)[1..] == g.value;
    }
  }

  lemma EscStep(s: seq<byte>)
    requires |s| >= 2 && s[0] == BACKSLASH && IsEscape(s[1])
    ensures PiecesOut(s) == Prepend([Escaped(s[1])], PiecesOut(s[2..]))
  {
    hide Escaped;
    var g := Pieces(s[2..]);
    if g.Got? {
      assert ([Esc(s[1])] + g.value)[1..] == g.value;
    }
  }

  predicate StartsCode(s: seq<byte>) {
    |s| >= 6 && s[0] == BACKSLASH && s[1] == LETTER_U && AllHex(s[2..6])
  }

  function CodeOf(s: seq<byte>): nat
    requires StartsCode(s)
  {
    HexVal(s[2..6])
  }

  lemma PiecesCode(s: seq<byte>)
    requires StartsCode(s)
    ensures Pieces(s) == More(Code(s[2..6]), Pieces(s[6..]))
  {
  }

  /** An escape that starts no pair. */
  lemma CodeStep(s: seq<byte>)
    requires StartsCode(s)
    requires IsHigh(CodeOf(s)) && StartsCode(s[6..]) ==> !IsLow(CodeOf(s[6..]))
    ensures PiecesOut(s) == Prepend(RuneBytes(CodeOf(s)), PiecesOut(s[6..]))
  {
    hide HexVal, RuneBytes, Pieces, AllHex;
    var g := Pieces(s[6..]);
    PiecesCode(s);
    if g.Got? {
      assert ([Code(s[2..6])] + g.value)[1..] == g.value;
      FirstPiece(s[6..]);
    }
  }

  lemma FirstPiece(s: seq<byte>)
    requires Pieces(s).Got?
    ensures var ps := Pieces(s).value; ps != [] && ps[0].Code? ==> StartsCode(s) && ps[0].hex == s[2..6]
  {
  }

  lemma PairStep(s: seq<byte>)
    requires StartsCode(s) && StartsCode(s[6..]) && IsHigh(CodeOf(s)) && IsLow(CodeOf(s[6..]))
    ensures PiecesOut(s) == Prepend(RuneBytes(PairRune(CodeOf(s), CodeOf(s[6..]))), PiecesOut(s[12..]))
  {
    hide HexVal, RuneBytes, Pieces, AllHex, PairRune;
    PiecesCode(s);
    PiecesCode(s[6..]);
    assert s[6..][6..] == s[12..];
    var g := Pieces(s[12..]);
    if g.Got? {
      var ps := [Code(s[2..6])] + ([Code(s[6..][2..6])] + g.value);
      assert ps[2..] == g.value;
    }
  }

  /** What follows a backslash that starts no piece ends the string badly. */
  lemma BadEscape(s: seq<byte>)
    requires s != [] && s[0] == BACKSLASH && !(|s| >= 2 && IsEscape(s[1])) && !StartsCode(s)
    ensures PiecesOut(s).No?
  {
  }

  lemma PrependTwice(a: seq<byte>, b: seq<byte>, g: Got<seq<byte>>)
    ensures Prepend(a, Prepend(b, g)) == Prepend(a + b, g)
  {
    if g.Got? {
      Assoc(a, b, g.value);
    }
  }

  // ---- the reader ---------------------------------------------------------------------------------------

  /** A number from its pieces: an integer, or a decimal fraction with its digits as they are. */
  method AppendNumeral(dst: seq<byte>, n: numeral) returns (out: seq<byte>)
    ensures out == dst + NumeralBytes(n)
  {
    hide DecimalBytes, IntegerBytes, IntVal, MantissaText;
    var mantissa := MantissaText(n);
    if n.frac == [] && n.mark == [] {
      out := AppendInteger(dst, mantissa);
    } else {
      var exp := if n.mark == [] then 0 else ExpVal(n.exp);
      out := AppendDecimal(dst, mantissa, Wrap64(exp - |n.frac|));
    }
  }

  class JsonParser {
    const src: seq<byte>
    var pos: nat

    ghost predicate Valid()
      reads this
    {
      pos <= |src|
    }

    ghost function Left(): seq<byte>
      requires Valid()
      reads this
    {
      src[pos..]
    }

    constructor (src: seq<byte>)
      ensures Valid() && Left() == src
    {
      this.src := src;
      pos := 0;
    }

    method SkipSpace()
      requires Valid()
      modifies this
      ensures Valid() && Left() == AfterSpace(old(Left()))
    {
      hide AfterSpace;
      while pos < |src| && IsSpace(src[pos])
        invariant Valid() && AfterSpace(Left()) == AfterSpace(old(Left()))
      {
        SpaceStep(Left());
        assert Left()[1..] == src[pos + 1..];
        pos := pos + 1;
      }
      NoSpace(Left());
    }

    method Literal(dst: seq<byte>, word: seq<byte>, cbor: seq<byte>) returns (ok: bool, out: seq<byte>)
      requires Valid()
      modifies this
      ensures Valid()
      ensures ok <==> |word| <= |old(Left())| && old(Left())[..|word|] == word
      ensures ok ==> out == dst + cbor && Left() == old(Left())[|word|..]
    {
      out := dst;
      if |src| - pos < |word| {
        return false, dst;
      }
      assert Left()[..|word|] == src[pos..pos + |word|];
      if src[pos..pos + |word|] != word {
        return false, dst;
      }
      pos := pos + |word|;
      return true, dst + cbor;
    }

    /** Four hexadecimal digits, or nothing read. */
    method Hex4() returns (r: nat, ok: bool)
      requires Valid()
      modifies this
      ensures Valid() && ok == (|old(Left())| >= 4 && AllHex(old(Left())[..4]))
      ensures ok ==> r == HexVal(old(Left())[..4]) && Left() == old(Left())[4..]
      ensures !ok ==> pos == old(pos)
    {
      if pos + 4 > |src| {
        return 0, false;
      }
      var digits := src[pos..pos + 4];
      assert Left()[..4] == digits;
      r := 0;
      for i := 0 to 4
        invariant AllHex(digits[..i]) && r == HexVal(digits[..i])
        invariant pos == old(pos)
      {
        if !IsHex(digits[i]) {
          return 0, false;
        }
        assert digits[..i + 1][..i] == digits[..i];
        r := r * 16 + HexDigit(digits[i]);
      }
      assert digits[..4] == digits;
      pos := pos + 4;
      return r, true;
    }

    /** The string at pos, its escapes resolved. */
    method Str() returns (ok: bool, s: seq<byte>)
      requires Valid() && StartsWith(Left(), QUOTE)
      modifies this
      ensures Valid()
      ensures var g := PiecesOut(old(Left())[1..]);
              ok == g.Got? && (ok ==> s == Repair(g.value) && Left() == g.rest)
    {
      hide PiecesOut;
      pos := pos + 1;
      var start := pos;
      ghost var whole := PiecesOut(Left());
      PrependNothing(PiecesOut(Left()));
      assert src[start..pos] == [];
      while pos < |src| && src[pos] != QUOTE && src[pos] != BACKSLASH && src[pos] >= 0x20
        invariant start <= pos && Valid()
        invariant whole == Prepend(src[start..pos], PiecesOut(Left()))
      {
        RawStep(Left());
        PrependTwice(src[start..pos], [src[pos]], PiecesOut(src[pos + 1..]));
        assert Left()[1..] == src[pos + 1..] && src[start..pos] + [src[pos]] == src[start..pos + 1];
        pos := pos + 1;
      }
      if pos < |src| && src[pos] == QUOTE {
        var text := src[start..pos];
        StringEnd(text, Left());
        pos := pos + 1;
        s := ValidText(text);
        ok := true;
      } else {
        ok, s := Rest(src[start..pos]);
      }
    }

    /** The rest of a string with escapes, after the bytes read so far. */
    method Rest(head: seq<byte>) returns (ok: bool, s: seq<byte>)
      requires Valid()
      modifies this
      ensures Valid()
      ensures var g := Prepend(head, PiecesOut(old(Left())));
              ok == g.Got? && (ok ==> s == Repair(g.value) && Left() == g.rest)
    {
      hide PiecesOut, RuneBytes, Repair;
      var out := head;
      ghost var whole := Prepend(head, PiecesOut(Left()));
      while pos < |src|
        invariant Valid() && whole == Prepend(out, PiecesOut(Left()))
      {
        var c := src[pos];
        if c == QUOTE {
          StringEnd(out, Left());
          pos := pos + 1;
          s := ValidText(out);
          return true, s;
        } else if c < 0x20 {
          BadByte(Left());
          return false, [];
        } else if c != BACKSLASH {
          RawStep(Left());
          PrependTwice(out, [c], PiecesOut(src[pos + 1..]));
          assert Left()[1..] == src[pos + 1..];
          out := out + [c];
          pos := pos + 1;
        } else {
          var good, bytes := Escape();
          if !good {
            return false, [];
          }
          PrependTwice(out, bytes, PiecesOut(Left()));
          out := out + bytes;
        }
      }
      BadByte(Left());
      return false, [];
    }

    /** The escape at pos: the bytes it, or the pair of escapes it starts, stands for. */
    method Escape() returns (ok: bool, bytes: seq<byte>)
      requires Valid() && StartsWith(Left(), BACKSLASH)
      modifies this
      ensures Valid() && pos > old(pos)
      ensures ok ==> PiecesOut(old(Left())) == Prepend(bytes, PiecesOut(Left()))
      ensures !ok ==> PiecesOut(old(Left())).No?
    {
      hide PiecesOut, RuneBytes, Escaped;
      ghost var s := Left();
      pos := pos + 1;
      if pos >= |src| {
        BadEscape(s);
        return false, [];
      }
      var e := src[pos];
      pos := pos + 1;
      assert Left() == s[2..] && s[1] == e;
      if e == QUOTE || e == BACKSLASH || e == 0x2f || e == 0x62 || e == 0x66 || e == 0x6e || e == 0x72 || e == 0x74 {
        EscStep(s);
        return true, [Escaped(e)];
      } else if e == LETTER_U {
        ok, bytes := Unicode(s);
      } else {
        BadEscape(s);
        return false, [];
      }
    }

    /** The digits of a \u escape, and those of a second one that completes a pair. */
    method Unicode(ghost s: seq<byte>) returns (ok: bool, bytes: seq<byte>)
      requires Valid() && |s| >= 2 && s[0] == BACKSLASH && s[1] == LETTER_U && Left() == s[2..]
      modifies this
      ensures Valid() && pos >= old(pos)
      ensures ok ==> PiecesOut(s) == Prepend(bytes, PiecesOut(Left()))
      ensures !ok ==> PiecesOut(s).No?
    {
      hide PiecesOut, RuneBytes, AllHex, HexVal, PairRune;
      var r, good := Hex4();
      if !good {
        NotCode(s);
        BadEscape(s);
        return false, [];
      }
      FourDigits(s);
      assert Left() == s[6..];
      if 0xd800 <= r < 0xe000 {
        if r < 0xdc00 && pos + 1 < |src| && src[pos] == BACKSLASH && src[pos + 1] == LETTER_U {
          var save := pos;
          ghost var next := Left();
          pos := pos + 2;
          assert Left() == next[2..];
          var r2, more := Hex4();
          if more && 0xdc00 <= r2 < 0xe000 {
            FourDigits(next);
            PairStep(s);
            assert Left() == s[12..];
            return true, RuneBytes(PairRune(r, r2));
          } else {
            pos := save;
            if more {
              FourDigits(next);
            } else {
              NotCode(next);
            }
          }
        }
        CodeStep(s);
        LoneHalf(r);
        return true, RuneBytes(RUNE_ERROR);
      }
      CodeStep(s);
      return true, RuneBytes(r);
    }

    method Number(dst: seq<byte>) returns (ok: bool, out: seq<byte>)
      requires Valid() && Left() != [] && (Left()[0] == MINUS || IsDigit(Left()[0]))
      modifies this
      ensures Valid()
      ensures var g := ParseNumeral(old(Left()));
              ok == g.Got? && (ok ==> out == dst + NumeralBytes(g.value) && Left() == g.rest)
    {
      hide WholePart, FracPart, ExpPart, NumeralBytes;
      out := dst;
      var neg := src[pos] == MINUS;
      if neg {
        assert Left()[1..] == src[pos + 1..];
        pos := pos + 1;
      }
      var whole, frac, mark, exp;
      ok, whole := WholeDigits();
      if !ok { return; }
      ok, frac := FracDigits();
      if !ok { return; }
      ok, mark, exp := Exponent();
      if !ok { return; }
      out := AppendNumeral(dst, Numeral(neg, whole, frac, mark, exp));
    }

    method WholeDigits() returns (ok: bool, whole: seq<byte>)
      requires Valid()
      modifies this
      ensures Valid()
      ensures var g := WholePart(old(Left())); ok == g.Got? && (ok ==> whole == g.value && Left() == g.rest)
    {
      hide Run;
      var start := pos;
      if pos < |src| && src[pos] == ZERO {
        pos := pos + 1;
      } else {
        pos := ScanDigits(src, pos);
        if pos == start {
          return false, [];
        }
      }
      whole := src[start..pos];
      assert whole == src[start..][..pos - start] && src[pos..] == src[start..][pos - start..];
      return true, whole;
    }

    method FracDigits() returns (ok: bool, frac: seq<byte>)
      requires Valid()
      modifies this
      ensures Valid()
      ensures var g := FracPart(old(Left())); ok == g.Got? && (ok ==> frac == g.value && Left() == g.rest)
    {
      hide Run;
      if pos < |src| && src[pos] == POINT {
        assert Left()[1..] == src[pos + 1..];
        pos := pos + 1;
        var start := pos;
        pos := ScanDigits(src, pos);
        if pos == start {
          return false, [];
        }
        frac := src[start..pos];
        assert frac == src[start..][..pos - start] && src[pos..] == src[start..][pos - start..];
        return true, frac;
      }
      return true, [];
    }

    method Exponent() returns (ok: bool, mark: seq<byte>, exp: seq<byte>)
      requires Valid()
      modifies this
      ensures Valid()
      ensures var g := ExpPart(old(Left())); ok == g.Got? && (ok ==> (mark, exp) == g.value && Left() == g.rest)
    {
      hide Run, ExpVal;
      if pos < |src| && (src[pos] == 0x65 || src[pos] == 0x45) {
        assert Left()[1..] == src[pos + 1..] && Left()[..1] == [src[pos]];
        mark := [src[pos]];
        pos := pos + 1;
        var some;
        some, exp := ExponentText();
        if !some || !IsInt64(ExpVal(exp)) {
          return false, [], [];
        }
        return true, mark, exp;
      }
      return true, [], [];
    }

    /** An optional sign and the digits after it; whether there are any. */
    method ExponentText() returns (some: bool, exp: seq<byte>)
      requires Valid()
      modifies this
      ensures Valid()
      ensures var t := old(Left()); exp == t[..ExpLen(t)] && Left() == t[ExpLen(t)..] && some == (ExpDigits(exp) != [])
    {
      hide Run, ExpLen, ExpDigits;
      var start := pos;
      ghost var t := Left();
      if pos < |src| && (src[pos] == PLUS || src[pos] == MINUS) {
        pos := pos + 1;
        assert Left() == t[1..];
      }
      SignRun(t, Left());
      var digits := pos;
      pos := ScanDigits(src, pos);
      exp := src[start..pos];
      Slices(src, start, pos);
      some := pos != digits;
    }

    /** The value after white space, appended to dst as it is read. */
    method Value(dst: seq<byte>, depth: nat) returns (ok: bool, out: seq<byte>)
      requires Valid()
      modifies this
      ensures Valid()
      ensures var g := ValueOut(old(Left()), depth);
              ok == g.Got? && (ok ==> out == dst + g.value && Left() == g.rest)
      decreases |src| - pos, 2
    {
      hide AfterSpace, ItemsBytes, MembersBytes, NumeralBytes, TextBytes, ParseNumeral, Pieces, Resolve, Repair;
      SkipSpace();
      ghost var s := Left();
      if pos >= |src| {
        return false, dst;
      }
      var c := src[pos];
      if c == OPEN_OBJECT {
        ok, out := Object(dst, depth);
      } else if c == OPEN_ARRAY {
        ok, out := Array(dst, depth);
      } else if c == QUOTE {
        var text;
        ok, text := Str();
        out := if ok then dst + TextBytes(text) else dst;
      } else if c == MINUS || IsDigit(c) {
        ok, out := Number(dst);
      } else if c == 0x74 {
        ok, out := Literal(dst, TRUE, [0xf5]);
      } else if c == 0x66 {
        ok, out := Literal(dst, FALSE, [0xf4]);
      } else if c == 0x6e {
        ok, out := Literal(dst, NULL, [0xf6]);
      } else {
        return false, dst;
      }
    }

    method Array(dst: seq<byte>, depth: nat) returns (ok: bool, out: seq<byte>)
      requires Valid() && Left() != []
      modifies this
      ensures Valid()
      ensures var g := ArrayValue(old(Left()), depth);
              ok == g.Got? && (ok ==> out == dst + JsonBytes(g.value) && Left() == g.rest)
      decreases |src| - pos, 1
    {
      hide AfterSpace, Items, ItemsBytes;
      if depth >= MAX_JSON_DEPTH {
        return false, dst;
      }
      ghost var t := Left()[1..];
      pos := pos + 1;
      assert Left() == t;
      out := dst + [0x9f];
      SkipSpace();
      if pos < |src| && src[pos] == CLOSE_ARRAY {
        pos := pos + 1;
        assert Left() == AfterSpace(t)[1..];
        EmptyBytes();
        return true, out + [BREAK];
      }
      SkippedItems(t, depth + 1);
      ok, out := Elements(out, depth);
      out := if ok then out + [BREAK] else out;
      if ok {
        assert ((dst + [0x9f]) + ItemsBytes(Items(t, depth + 1).value)) + [BREAK]
            == dst + ([0x9f] + (ItemsBytes(Items(t, depth + 1).value) + [BREAK]));
      }
    }

    /** The loop over the elements of an array, up to its closing bracket. */
    method Elements(dst: seq<byte>, depth: nat) returns (ok: bool, out: seq<byte>)
      requires Valid() && depth < MAX_JSON_DEPTH
      modifies this
      ensures Valid()
      ensures var g := ItemsOut(old(Left()), depth + 1);
              ok == g.Got? && (ok ==> out == dst + g.value && Left() == g.rest)
      decreases |src| - pos, 3
    {
      hide AfterSpace, ItemsOut, ValueOut;
      out := dst;
      ghost var done: seq<byte> := [];
      ghost var whole := ItemsOut(Left(), depth + 1);
      PrependNothing(whole);
      while true
        invariant Valid() && pos >= old(pos) && out == dst + done
        invariant whole == Prepend(done, ItemsOut(Left(), depth + 1))
        decreases |src| - pos
      {
        ItemsOutStep(Left(), depth + 1);
        ghost var v := ValueOut(Left(), depth + 1);
        label Before:
        ok, out := Value(out, depth + 1);
        if !ok {
          return;
        }
        Shorter(old@Before(Left()), depth + 1);
        done := done + v.value;
        SkipSpace();
        ghost var r := Left();
        if pos >= |src| {
          return false, out;
        }
        assert r[1..] == src[pos + 1..];
        if src[pos] == COMMA {
          pos := pos + 1;
          PrependTwice(done[..|done| - |v.value|], v.value, ItemsOut(Left(), depth + 1));
          assert done[..|done| - |v.value|] + v.value == done;
        } else if src[pos] == CLOSE_ARRAY {
          pos := pos + 1;
          return true, out;
        } else {
          return false, out;
        }
      }
    }

    method Object(dst: seq<byte>, depth: nat) returns (ok: bool, out: seq<byte>)
      requires Valid() && Left() != []
      modifies this
      ensures Valid()
      ensures var g := ObjectValue(old(Left()), depth);
              ok == g.Got? && (ok ==> out == dst + JsonBytes(g.value) && Left() == g.rest)
      decreases |src| - pos, 1
    {
      hide AfterSpace, Members, MembersBytes;
      if depth >= MAX_JSON_DEPTH {
        return false, dst;
      }
      ghost var t := Left()[1..];
      pos := pos + 1;
      assert Left() == t;
      out := dst + [0xbf];
      SkipSpace();
      if pos < |src| && src[pos] == CLOSE_OBJECT {
        pos := pos + 1;
        assert Left() == AfterSpace(t)[1..];
        EmptyBytes();
        return true, out + [BREAK];
      }
      SkippedItems(t, depth + 1);
      ok, out := Fields(out, depth);
      out := if ok then out + [BREAK] else out;
      if ok {
        assert ((dst + [0xbf]) + MembersBytes(Members(t, depth + 1).value)) + [BREAK]
            == dst + ([0xbf] + (MembersBytes(Members(t, depth + 1).value) + [BREAK]));
      }
    }

    /** A key and the colon after it. */
    method KeyText(dst: seq<byte>) returns (ok: bool, out: seq<byte>)
      requires Valid()
      modifies this
      ensures Valid()
      ensures var g := KeyOut(old(Left()));
              ok == g.Got? && (ok ==> out == dst + g.value && Left() == g.rest)
    {
      hide AfterSpace, Pieces, TextBytes, Resolve, Repair;
      SkipSpace();
      ghost var s := Left();
      if pos >= |src| || src[pos] != QUOTE {
        return false, dst;
      }
      var key;
      ok, key := Str();
      if !ok {
        return false, dst;
      }
      out := dst + TextBytes(key);
      SkipSpace();
      if pos >= |src| || src[pos] != COLON {
        return false, out;
      }
      assert Left()[1..] == src[pos + 1..];
      pos := pos + 1;
    }

    /** The loop over the members of an object, up to its closing brace. */
    method Fields(dst: seq<byte>, depth: nat) returns (ok: bool, out: seq<byte>)
      requires Valid() && depth < MAX_JSON_DEPTH
      modifies this
      ensures Valid()
      ensures var g := MembersOut(old(Left()), depth + 1);
              ok == g.Got? && (ok ==> out == dst + g.value && Left() == g.rest)
      decreases |src| - pos, 3
    {
      hide AfterSpace, MembersOut, ValueOut, KeyOut, Prepend;
      out := dst;
      ghost var done: seq<byte> := [];
      ghost var whole := MembersOut(Left(), depth + 1);
      PrependNothing(whole);
      while true
        invariant Valid() && pos >= old(pos) && out == dst + done
        invariant whole == Prepend(done, MembersOut(Left(), depth + 1))
        decreases |src| - pos
      {
        MembersRound(done, Left(), depth + 1);
        ghost var k := KeyOut(Left());
        label Start:
        ok, out := KeyText(out);
        if !ok {
          return;
        }
        ShorterKey(old@Start(Left()));
        ghost var v := ValueOut(Left(), depth + 1);
        label Before:
        ok, out := Value(out, depth + 1);
        if !ok {
          return;
        }
        Shorter(old@Before(Left()), depth + 1);
        Assoc(dst + done, k.value, v.value);
        Assoc(dst, done, k.value + v.value);
        done := done + (k.value + v.value);
        SkipSpace();
        ghost var r := Left();
        if pos >= |src| {
          return false, out;
        }
        assert r[1..] == src[pos + 1..];
        if src[pos] == COMMA {
          pos := pos + 1;
        } else if src[pos] == CLOSE_OBJECT {
          pos := pos + 1;
          return true, out;
        } else {
          return false, out;
        }
      }
    }
  }

  lemma Slices(src: seq<byte>, start: nat, end: nat)
    requires start <= end <= |src|
    ensures src[start..end] == src[start..][..end - start] && src[end..] == src[start..][end - start..]
  {
  }

  /** An exponent's text is the sign, if there is one, and the digits `u` starts with. */
  lemma SignRun(t: seq<byte>, u: seq<byte>)
    requires u == if t != [] && (t[0] == PLUS || t[0] == MINUS) then t[1..] else t
    ensures ExpLen(t) == |t| - |u| + Run(u) && (ExpDigits(t[..ExpLen(t)]) != [] <==> Run(u) > 0)
  {
    hide Run, ExpLen, ExpDigits;
    if t != [] && (t[0] == PLUS || t[0] == MINUS) {
      Signed(t);
    } else {
      NoSign(t);
    }
  }

  lemma Signed(t: seq<byte>)
    requires t != [] && (t[0] == PLUS || t[0] == MINUS)
    ensures ExpLen(t) == 1 + Run(t[1..]) && (ExpDigits(t[..1 + Run(t[1..])]) != [] <==> Run(t[1..]) > 0)
  {
    hide Run;
    assert t[..1] == [t[0]];
    assert t[..1 + Run(t[1..])][..1] == t[..1];
    assert |t[..1 + Run(t[1..])][1..]| == Run(t[1..]);
  }

  lemma NoSign(t: seq<byte>)
    requires t == [] || (t[0] != PLUS && t[0] != MINUS)
    ensures ExpLen(t) == Run(t) && (ExpDigits(t[..Run(t)]) != [] <==> Run(t) > 0)
  {
    hide Run;
    assert t != [] ==> t[..1] == [t[0]];
    assert Run(t) > 0 ==> t[..Run(t)][..1] == t[..1];
  }

  lemma NoSpace(s: seq<byte>)
    requires s == [] || !IsSpace(s[0])
    ensures AfterSpace(s) == s
  {
  }

  lemma PrependNothing(g: Got<seq<byte>>)
    ensures Prepend([], g) == g
  {
    if g.Got? {
      assert [] + g.value == g.value;
    }
  }

  lemma StringEnd(out: seq<byte>, s: seq<byte>)
    requires StartsWith(s, QUOTE)
    ensures Prepend(out, PiecesOut(s)) == Got(out, s[1..])
  {
    assert out + [] == out;
  }

  lemma BadByte(s: seq<byte>)
    requires s == [] || s[0] < 0x20
    ensures PiecesOut(s).No?
  {
  }

  lemma FourDigits(s: seq<byte>)
    requires |s| >= 6 && s[0] == BACKSLASH && s[1] == LETTER_U && AllHex(s[2..][..4])
    ensures StartsCode(s) && CodeOf(s) == HexVal(s[2..][..4]) && s[2..][4..] == s[6..]
  {
    assert s[2..][..4] == s[2..6];
  }

  lemma NotCode(s: seq<byte>)
    requires |s| >= 2 && !(|s[2..]| >= 4 && AllHex(s[2..][..4]))
    ensures !StartsCode(s)
  {
    if |s| >= 6 {
      assert s[2..][..4] == s[2..6];
    }
  }

  lemma LoneHalf(r: nat)
    requires 0xd800 <= r < 0xe000
    ensures RuneBytes(r) == RuneBytes(RUNE_ERROR)
  {
  }

  lemma EmptyBytes()
    ensures ItemsBytes([]) == [] && MembersBytes([]) == []
  {
  }

  lemma Shorter(s: seq<byte>, depth: nat)
    ensures ValueOut(s, depth).Got? ==> |ValueOut(s, depth).rest| < |s|
  {
  }

  lemma ShorterKey(s: seq<byte>)
    ensures KeyOut(s).Got? ==> |KeyOut(s).rest| < |s|
  {
  }

  /** AppendJSON: the CBOR of the document after dst, or dst as it was. */
  method AppendJson(dst: seq<byte>, src: seq<byte>) returns (ok: bool, out: seq<byte>)
    ensures ok <==> Document(src).Got?
    ensures out == if ok then dst + JsonBytes(Document(src).value.value) else dst
  {
    hide JsonBytes, AfterSpace;
    var p := new JsonParser(src);
    var bytes;
    ok, bytes := p.Value(dst, 0);
    if !ok {
      return false, dst;
    }
    p.SkipSpace();
    if p.pos != |p.src| {
      return false, dst;
    }
    return true, bytes;
  }
}
