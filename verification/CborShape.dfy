/**
 What the writer writes, as a spelling: every head as short as it can be, lengths definite or not as asked, and each
 structure defined at its first record and referred to by the others.
 */
module CborShape {
  import opened Wrappers
  import opened Bytes
  import opened CborEncode
  import opened CborDoc
  import opened CborGrammar
  import CborItem

  /** The narrowest head for an argument: section 4.1 of RFC 8949. */
  function Shortest(n: nat): Width {
    if n < 24 then Short
    else if n < 0x100 then One
    else if n < 0x1_0000 then Two
    else if n < 0x1_0000_0000 then Four
    else Eight
  }

  lemma HeadShortest(major: nat, n: nat)
    requires major < 8 && IsUint64(n)
    ensures Carries(Shortest(n), n)
    ensures HeadBytes(major, n) == HeadOf(major, Shortest(n), n)
  {
  }

  // ---- the shape of a document ------------------------------------------------------------------------------------

  function Plain(s: seq<byte>): Chars {
    Whole(Chunk(Shortest(|s|), s))
  }

  function PlainKeys(keys: seq<seq<byte>>): (cs: seq<Chars>)
    ensures |cs| == |keys| && forall i :: 0 <= i < |keys| ==> cs[i] == Plain(keys[i])
  {
    seq(|keys|, i requires 0 <= i < |keys| => Plain(keys[i]))
  }

  /** An integer of 64 bits and a sign as such, any other as a bignum without leading zero bytes. */
  ghost predicate IsNumber(x: Wire, n: int) {
    var m := if n >= 0 then n else -1 - n;
    if m < TWO64 then x == Number(n < 0, Shortest(m), m)
    else x.Tagged? && x.w == Short && x.tag == (if n < 0 then 3 else 2) && x.x.Str? && !x.x.text
         && x.x.c.Whole? && x.x.c == Plain(x.x.c.c.s) && FromBE(x.x.c.c.s) == m && x.x.c.c.s != [] && x.x.c.c.s[0] != 0
  }

  function LengthFor(indef: bool, n: nat): Option<Width> {
    if indef then None else Some(Shortest(n))
  }

  /** The ids of the records of a document that have one. */
  function Ids(d: Doc): set<nat>
    decreases d, 0
  {
    match d
    case DArr(_, items) => AllIds(items)
    case DMap(_, _, values) => AllIds(values)
    case DRec(id, _, values) => (if id >= 0 then {id as nat} else {}) + AllIds(values)
    case _ => {}
  }

  function AllIds(ds: seq<Doc>): set<nat>
    decreases ds, 0
  {
    if ds == [] then {} else Ids(ds[0]) + AllIds(ds[1..])
  }

  /** A spelling of a document after some structures have been defined. */
  ghost predicate IsWritten(d: Doc, x: Wire, defined: set<nat>)
    requires Typed(d)
    decreases d, 0
  {
    match d
    case DNull => x == Simple(22)
    case DBool(b) => x == Simple(if b then 21 else 20)
    case DInteger(text) => IsNumber(x, IntVal(text))
    case DDecimal(text, exp) =>
      x.Tagged? && x.w == Short && x.tag == 4 && x.x.Sequence? && x.x.len == Some(Short) && |x.x.items| == 2
      && IsNumber(x.x.items[0], exp) && IsNumber(x.x.items[1], IntVal(text))
    case DFloat(bits) => x == Real(Eight, bits)
    case DText(s) => x == Str(true, Plain(s))
    case DBlob(s) => x == Str(false, Plain(s))
    case DEpoch(sec) => x.Tagged? && x.w == Short && x.tag == 1 && IsNumber(x.x, sec)
    case DDate(days) => x.Tagged? && x.w == One && x.tag == 100 && IsNumber(x.x, days)
    case DUuid(s) => x == Tagged(One, 37, Str(false, Plain(s)))
    case DArr(indef, items) => x.Sequence? && x.len == LengthFor(indef, |items|) && AllWritten(items, x.items, defined)
    case DMap(indef, keys, values) =>
      x.Dictionary? && x.len == LengthFor(indef, |keys|) && x.keys == PlainKeys(keys)
      && AllWritten(values, x.items, defined)
    case DRec(id, keys, values) =>
      if id < 0 then
        x.Dictionary? && x.len == Some(Shortest(|keys|)) && x.keys == PlainKeys(keys)
        && AllWritten(values, x.items, defined)
      else if id in defined then
        x.Refer? && x == Refer(Two, id, Shortest(|keys|), x.items) && AllWritten(values, x.items, defined)
      else
        x.Define?
        && x == Define(Two, Shortest(|keys| + 2), Two, 0xe000 + id, Shortest(|keys|), PlainKeys(keys), x.items)
        && AllWritten(values, x.items, defined + {id as nat})
  }

  ghost predicate AllWritten(ds: seq<Doc>, xs: seq<Wire>, defined: set<nat>)
    requires TypedAll(ds)
    decreases ds, 0
  {
    && |xs| == |ds|
    && (ds == [] || (IsWritten(ds[0], xs[0], defined) && AllWritten(ds[1..], xs[1..], defined + Ids(ds[0]))))
  }

  // ---- the writer writes it ---------------------------------------------------------------------------------------

  lemma NumberWritten(n: int) returns (x: Wire)
    requires |MinBE(if n >= 0 then n else -1 - n)| < TWO63
    ensures WellFormed(x) && Spell(x) == IntegerBytes(n) && IsNumber(x, n)
  {
    hide HeadBytes, HeadOf;
    var m := if n >= 0 then n else -1 - n;
    if m < TWO64 {
      HeadShortest(if n < 0 then 1 else 0, m);
      x := Number(n < 0, Shortest(m), m);
    } else {
      var tag := if n < 0 then 3 else 2;
      HeadShortest(6, tag);
      BlobWritten(MinBE(m));
      FromMinBE(m);
      x := Tagged(Short, tag, Str(false, Plain(MinBE(m))));
    }
  }

  lemma BlobWritten(s: seq<byte>)
    requires |s| < TWO63
    ensures CharsOk(Plain(s))
    ensures SpellChars(2, Plain(s)) == BlobBytes(s) && SpellChars(3, Plain(s)) == TextBytes(s)
  {
    hide HeadBytes, HeadOf;
    HeadShortest(2, |s|);
    HeadShortest(3, |s|);
  }

  lemma IntegerLength(text: seq<byte>)
    requires IsIntText(text) && |text| < TWO63
    ensures var n := IntVal(text); |MinBE(if n >= 0 then n else -1 - n)| < TWO63
  {
    hide MinBE, DigitsVal, Pow10;
    DigitsValBound(Unsigned(text));
    var n := IntVal(text);
    MinBELength(if n >= 0 then n else -1 - n, |Unsigned(text)|);
  }

  lemma SmallLength(n: int)
    requires IsInt64(n)
    ensures |MinBE(if n >= 0 then n else -1 - n)| < TWO63
  {
    hide MinBE, Pow10;
    Pow10Mono(19, 20);
    MinBELength(if n >= 0 then n else -1 - n, 20);
  }

  lemma {:induction false} KeysWritten(keys: seq<seq<byte>>)
    requires forall i :: 0 <= i < |keys| ==> |keys[i]| < TWO63
    ensures KeysOk(PlainKeys(keys)) && SpellKeys(PlainKeys(keys)) == NamesBytes(keys)
  {
    hide TextBytes, SpellChars;
    forall i | 0 <= i < |keys| ensures CharsOk(PlainKeys(keys)[i]) {
      BlobWritten(keys[i]);
    }
    if keys != [] {
      BlobWritten(keys[0]);
      KeysWritten(keys[1..]);
      assert PlainKeys(keys)[1..] == PlainKeys(keys[1..]);
    }
  }

  lemma OpeningWritten(major: nat, indef: bool, n: nat)
    requires 4 <= major <= 5 && n < TWO63
    ensures LengthOk(LengthFor(indef, n), n) && Opening(major, LengthFor(indef, n), n) == Open(major, indef, n)
    ensures Closing(LengthFor(indef, n)) == Close(indef)
  {
    hide HeadBytes, HeadOf;
    HeadShortest(major, n);
  }

  /** What holds no other value. */
  lemma ScalarWritten(d: Doc, defined: set<nat>) returns (x: Wire)
    requires Typed(d) && !d.DArr? && !d.DMap? && !d.DRec?
    ensures WellFormed(x) && Spell(x) == Encode(d, defined).bytes && IsWritten(d, x, defined)
    ensures Encode(d, defined).defined == defined + Ids(d)
  {
    hide HeadBytes, HeadOf, IntegerBytes, DecimalBytes, SpellAll, SpellFields, EncodeAll, EncodeFields, AllWritten,
         AllWellFormed, Opening, Open, IsNumber, IntVal;
    match d
    case DNull => x := Simple(22);
    case DBool(b) => x := Simple(if b then 21 else 20);
    case DInteger(text) =>
      IntegerLength(text);
      x := NumberWritten(IntVal(text));
    case DDecimal(text, exp) => x := DecimalWritten(text, exp);
    case DFloat(bits) => x := FloatWritten(bits);
    case DText(s) =>
      BlobWritten(s);
      x := Str(true, Plain(s));
    case DBlob(s) =>
      BlobWritten(s);
      x := Str(false, Plain(s));
    case DEpoch(sec) => x := TaggedNumber(Short, 1, sec);
    case DDate(days) => x := TaggedNumber(One, 100, days);
    case DUuid(s) =>
      HeadShortest(6, 37);
      BlobWritten(s);
      x := Tagged(One, 37, Str(false, Plain(s)));
  }

  /** The bytes of a document are a spelling of its shape, and the structures defined after it are those it uses. */
  lemma {:induction false} Written(d: Doc, defined: set<nat>) returns (x: Wire)
    requires Typed(d)
    ensures WellFormed(x) && Spell(x) == Encode(d, defined).bytes && IsWritten(d, x, defined)
    ensures Encode(d, defined).defined == defined + Ids(d)
    decreases d, 1
  {
    hide HeadBytes, HeadOf, IntegerBytes, DecimalBytes, SpellAll, SpellFields, EncodeAll, EncodeFields, AllWritten,
         AllWellFormed, Opening, Open, IsNumber, StructureDefBytes, StructureRefBytes, IntVal, PlainKeys;
    match d
    case DArr(indef, items) =>
      var xs := ItemsWritten(items, defined);
      OpeningWritten(4, indef, |items|);
      ItemsCount(items, xs, defined);
      x := Sequence(LengthFor(indef, |items|), xs);
    case DMap(indef, keys, values) =>
      var xs := FieldsWritten(keys, values, defined);
      OpeningWritten(5, indef, |keys|);
      x := Dictionary(LengthFor(indef, |keys|), PlainKeys(keys), xs);
    case DRec(_, _, _) => x := RecordWritten(d, defined);
    case _ => x := ScalarWritten(d, defined);
  }

  lemma {:induction false} RecordWritten(d: Doc, defined: set<nat>) returns (x: Wire)
    requires Typed(d) && d.DRec?
    ensures WellFormed(x) && Spell(x) == Encode(d, defined).bytes && IsWritten(d, x, defined)
    ensures Encode(d, defined).defined == defined + Ids(d)
    decreases d, 0
  {
    hide HeadBytes, HeadOf, SpellAll, SpellFields, EncodeAll, EncodeFields, AllWritten, AllWellFormed,
         StructureDefBytes, StructureRefBytes, PlainKeys;
    var DRec(id, keys, values) := d;
    if id < 0 {
      var xs := FieldsWritten(keys, values, defined);
      x := MapWritten(keys, xs);
    } else if id in defined {
      var xs := ItemsWritten(values, defined);
      ItemsCount(values, xs, defined);
      x := ReferWritten(id, |keys|, xs);
      assert defined + {id as nat} == defined;
    } else {
      var xs := ItemsWritten(values, defined + {id as nat});
      ItemsCount(values, xs, defined + {id as nat});
      x := DefineWritten(id, keys, xs);
    }
  }

  lemma ItemsCount(ds: seq<Doc>, xs: seq<Wire>, defined: set<nat>)
    requires TypedAll(ds) && AllWritten(ds, xs, defined)
    ensures |xs| == |ds|
  {
  }

  lemma DecimalWritten(text: seq<byte>, exp: int) returns (x: Wire)
    requires Typed(DDecimal(text, exp))
    ensures WellFormed(x) && Spell(x) == DecimalBytes(IntVal(text), exp) && IsWritten(DDecimal(text, exp), x, {})
  {
    hide HeadBytes, HeadOf, IntegerBytes, IsNumber, IntVal, Spell, WellFormed;
    SmallLength(exp);
    IntegerLength(text);
    var e := NumberWritten(exp);
    var m := NumberWritten(IntVal(text));
    HeadShortest(6, 4);
    HeadShortest(4, 2);
    PairSpelling(e, m);
    x := Tagged(Short, 4, Sequence(Some(Short), [e, m]));
  }

  /** A decimal fraction: tag 4 over an array of two. */
  lemma PairSpelling(e: Wire, m: Wire)
    requires WellFormed(e) && WellFormed(m)
    ensures var x := Tagged(Short, 4, Sequence(Some(Short), [e, m]));
            WellFormed(x) && Spell(x) == HeadOf(6, Short, 4) + HeadOf(4, Short, 2) + Spell(e) + Spell(m)
  {
    hide HeadOf;
    var items := [e, m];
    assert items[1..] == [m] && [m][1..] == [];
    assert AllWellFormed(items[1..]);
    assert SpellAll(items[1..]) == Spell(m) + SpellAll([]);
    assert SpellAll(items) == Spell(e) + (Spell(m) + SpellAll([]));
    var pair := Sequence(Some(Short), items);
    assert WellFormed(pair) && Spell(pair) == HeadOf(4, Short, 2) + (SpellAll(items) + []);
  }

  lemma FloatWritten(bits: nat) returns (x: Wire)
    requires IsUint64(bits)
    ensures WellFormed(x) && Spell(x) == [0xfb] + ToBE(bits, 8) && x == Real(Eight, bits)
  {
    hide ToBE;
    x := Real(Eight, bits);
  }

  lemma TaggedNumber(w: Width, tag: nat, n: int) returns (x: Wire)
    requires IsInt64(n) && (tag == 1 || tag == 100) && w == Shortest(tag)
    ensures WellFormed(x) && Spell(x) == HeadBytes(6, tag) + IntegerBytes(n)
    ensures x.Tagged? && x.w == w && x.tag == tag && IsNumber(x.x, n)
  {
    hide HeadBytes, HeadOf, IntegerBytes, IsNumber;
    SmallLength(n);
    var y := NumberWritten(n);
    HeadShortest(6, tag);
    x := Tagged(w, tag, y);
  }

  lemma MapWritten(keys: seq<seq<byte>>, xs: seq<Wire>) returns (x: Wire)
    requires KeysOk(PlainKeys(keys)) && |keys| == |xs| < TWO63 && AllWellFormed(xs)
    ensures WellFormed(x) && Spell(x) == HeadBytes(5, |keys|) + SpellFields(PlainKeys(keys), xs)
    ensures x == Dictionary(Some(Shortest(|keys|)), PlainKeys(keys), xs)
  {
    hide HeadBytes, HeadOf, SpellFields, AllWellFormed, PlainKeys, KeysOk;
    HeadShortest(5, |keys|);
    x := Dictionary(Some(Shortest(|keys|)), PlainKeys(keys), xs);
  }

  lemma ReferWritten(id: nat, n: nat, xs: seq<Wire>) returns (x: Wire)
    requires id < CborItem.MAX_STRUCTURES && n == |xs| < TWO63 && AllWellFormed(xs)
    ensures WellFormed(x) && Spell(x) == StructureRefBytes(id, n) + SpellAll(xs)
    ensures x == Refer(Two, id, Shortest(n), xs)
  {
    hide HeadBytes, HeadOf, SpellAll, AllWellFormed;
    HeadShortest(6, 0xe000 + id);
    HeadShortest(4, n);
    x := Refer(Two, id, Shortest(n), xs);
  }

  lemma DefineWritten(id: nat, keys: seq<seq<byte>>, xs: seq<Wire>) returns (x: Wire)
    requires id < CborItem.MAX_STRUCTURES && |keys| == |xs| < TWO63 && AllWellFormed(xs)
    requires forall i :: 0 <= i < |keys| ==> |keys[i]| < TWO63
    ensures WellFormed(x) && Spell(x) == StructureDefBytes(id, keys) + SpellAll(xs)
    ensures x == Define(Two, Shortest(|keys| + 2), Two, 0xe000 + id, Shortest(|keys|), PlainKeys(keys), xs)
  {
    hide HeadBytes, HeadOf, SpellAll, AllWellFormed, SpellKeys, NamesBytes, PlainKeys, KeysOk;
    HeadShortest(6, 0xdfff);
    HeadShortest(4, |keys| + 2);
    HeadShortest(0, 0xe000 + id);
    HeadShortest(4, |keys|);
    KeysWritten(keys);
    x := Define(Two, Shortest(|keys| + 2), Two, 0xe000 + id, Shortest(|keys|), PlainKeys(keys), xs);
  }

  lemma {:induction false} ItemsWritten(ds: seq<Doc>, defined: set<nat>) returns (xs: seq<Wire>)
    requires TypedAll(ds)
    ensures AllWellFormed(xs) && SpellAll(xs) == EncodeAll(ds, defined).bytes && AllWritten(ds, xs, defined)
    ensures EncodeAll(ds, defined).defined == defined + AllIds(ds)
    decreases ds, 1
  {
    hide Encode, Spell, WellFormed, IsWritten, Typed, Ids;
    if ds == [] {
      xs := [];
    } else {
      var x := Written(ds[0], defined);
      var more := ItemsWritten(ds[1..], defined + Ids(ds[0]));
      xs := [x] + more;
      assert xs[1..] == more;
      assert defined + Ids(ds[0]) + AllIds(ds[1..]) == defined + (Ids(ds[0]) + AllIds(ds[1..]));
    }
  }

  lemma {:induction false} FieldsWritten(keys: seq<seq<byte>>, values: seq<Doc>, defined: set<nat>)
    returns (xs: seq<Wire>)
    requires TypedFields(keys, values) && TypedAll(values)
    ensures AllWellFormed(xs) && AllWritten(values, xs, defined) && KeysOk(PlainKeys(keys)) && |xs| == |keys|
    ensures SpellFields(PlainKeys(keys), xs) == EncodeFields(keys, values, defined).bytes
    ensures EncodeFields(keys, values, defined).defined == defined + AllIds(values)
    decreases values, 1
  {
    hide Encode, Spell, WellFormed, IsWritten, Typed, Ids, TextBytes, SpellChars;
    KeysWritten(keys);
    if values == [] {
      xs := [];
    } else {
      BlobWritten(keys[0]);
      var x := Written(values[0], defined);
      var more := FieldsWritten(keys[1..], values[1..], defined + Ids(values[0]));
      xs := [x] + more;
      assert xs[1..] == more && PlainKeys(keys)[1..] == PlainKeys(keys[1..]);
      assert defined + Ids(values[0]) + AllIds(values[1..]) == defined + (Ids(values[0]) + AllIds(values[1..]));
    }
  }
}
