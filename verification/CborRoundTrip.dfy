/**
 The reader undoes the writer: every document that fits reads back as its meaning, leaving exactly the
 bytes that follow it, and every document that does not fit is refused. Along the way the writer's set of
 defined structures and the reader's table stay in step.
 */
module CborRoundTrip {
  import opened Bytes
  import opened Utf8
  import opened CborItem
  import opened CborEncode
  import opened CborDoc

  /** The reader's table holds exactly the structures the writer has defined, under the planned names. */
  ghost predicate InStep(table: Table, defined: set<nat>, plan: seq<seq<seq<byte>>>) {
    && table.Keys == defined
    && forall id :: id in defined ==> id < |plan| && table[id] == plan[id] && NamesOk(plan[id])
  }

  /** The outcome the reader must have on a document: what it means, or a refusal. */
  ghost predicate ReadsAs<T>(r: Read<T>, fits: bool, value: T, suffix: seq<byte>, defined: set<nat>,
                             plan: seq<seq<seq<byte>>>) {
    if fits then r.Done? && r.value == value && r.rest == suffix && InStep(r.table, defined, plan) else r.Fail?
  }

  // ---- heads and strings -----------------------------------------------------------------

  lemma HeadThen(major: nat, v: nat, body: seq<byte>, suffix: seq<byte>)
    requires major < 8 && IsUint64(v)
    ensures var h := ReadHead((HeadBytes(major, v) + body) + suffix);
            h.Head? && h.major == major && h.val == v && !h.indef && h.rest == body + suffix
  {
    assert (HeadBytes(major, v) + body) + suffix == HeadBytes(major, v) + (body + suffix);
    HeadRoundTrip(major, v, body + suffix);
  }

  lemma StringRead(major: nat, s: seq<byte>, suffix: seq<byte>, depth: nat, table: Table, isTime: seq<byte> -> bool)
    requires 2 <= major <= 3 && |s| < TWO63
    ensures ReadItem((HeadBytes(major, |s| % TWO64) + s) + suffix, depth, table, isTime)
            == if major == 3 && !ValidUtf8(s) then Fail else Done(StringOf(major, s), suffix, table)
  {
    hide ReadHead, HeadBytes, ValidUtf8;
    HeadThen(major, |s|, s, suffix);
    assert (s + suffix)[..|s|] == s && (s + suffix)[|s|..] == suffix;
  }

  /** A tag that starts no structure, over whatever item follows. */
  lemma TagRead(tag: nat, body: seq<byte>, depth: nat, table: Table, isTime: seq<byte> -> bool)
    requires tag < TWO64 && !IsStructureTag(tag)
    ensures ReadItem(HeadBytes(6, tag) + body, depth, table, isTime)
            == if depth >= MAX_DEPTH then Fail
               else
                 var c := ReadItem(body, depth + 1, table, isTime);
                 if c.Fail? then Fail
                 else
                   var m := TagMeaning(tag, c.value, isTime);
                   if m.Refused? then Fail else Done(m.item, c.rest, c.table)
  {
    hide ReadHead, HeadBytes, TagMeaning, ReadStructure;
    HeadRoundTrip(6, tag, body);
  }

  lemma BignumRead(tag: nat, m: nat, suffix: seq<byte>, depth: nat, table: Table, isTime: seq<byte> -> bool)
    requires 2 <= tag <= 3 && |MinBE(m)| < TWO63
    ensures ReadItem((HeadBytes(6, tag) + BlobBytes(MinBE(m))) + suffix, depth, table, isTime)
            == if depth >= MAX_DEPTH then Fail else Done(Big(if tag == 2 then m else -1 - m), suffix, table)
  {
    hide ReadItem, HeadBytes, MinBE, FromBE;
    assert (HeadBytes(6, tag) + BlobBytes(MinBE(m))) + suffix == HeadBytes(6, tag) + (BlobBytes(MinBE(m)) + suffix);
    TagRead(tag, BlobBytes(MinBE(m)) + suffix, depth, table, isTime);
    StringRead(2, MinBE(m), suffix, depth + 1, table, isTime);
    FromMinBE(m);
  }

  lemma IntegerRead(n: int, suffix: seq<byte>, depth: nat, table: Table, isTime: seq<byte> -> bool)
    requires IsBig(n) ==> |MinBE(if n >= 0 then n else -1 - n)| < TWO63
    ensures ReadItem(IntegerBytes(n) + suffix, depth, table, isTime)
            == if IsBig(n) && depth >= MAX_DEPTH then Fail else Done(IntegerItem(n), suffix, table)
  {
    hide ReadHead, HeadBytes, MinBE, FromBE, BlobBytes;
    if 0 <= n < TWO64 {
      HeadRoundTrip(0, n, suffix);
    } else if -TWO64 <= n < 0 {
      HeadRoundTrip(1, -1 - n, suffix);
    } else {
      var m := if n >= 0 then n else -1 - n;
      BignumRead(if n >= 0 then 2 else 3, m, suffix, depth, table, isTime);
    }
  }

  /** An integer text's bignum is no longer than the text. */
  lemma IntegerTextRead(text: seq<byte>, suffix: seq<byte>, depth: nat, table: Table, isTime: seq<byte> -> bool)
    requires IsIntText(text) && |text| < TWO63
    ensures var n := IntVal(text);
            ReadItem(IntegerBytes(n) + suffix, depth, table, isTime)
            == if IsBig(n) && depth >= MAX_DEPTH then Fail else Done(IntegerItem(n), suffix, table)
  {
    hide ReadItem, IntegerBytes, MinBE;
    var n := IntVal(text);
    if IsBig(n) {
      DigitsValBound(Unsigned(text));
      MinBELength(if n >= 0 then n else -1 - n, |Unsigned(text)|);
    }
    IntegerRead(n, suffix, depth, table, isTime);
  }

  function LengthOf(indef: bool, n: nat): Length {
    if indef then ToBreak else Count(n)
  }

  lemma OpenRead(major: nat, indef: bool, n: nat, body: seq<byte>)
    requires 4 <= major <= 5 && n < TWO63
    ensures var h := ReadHead(Open(major, indef, n) + body);
            h.Head? && h.major == major && h.indef == indef && (!indef ==> h.val == n) && h.rest == body
  {
    if indef {
      var s := [major * 32 + 31] + body;
      assert s[0] / 32 == major && s[0] % 32 == 31 && s[1..] == body;
    } else {
      HeadRoundTrip(major, n, body);
    }
  }

  lemma ArrayRead(indef: bool, n: nat, body: seq<byte>, depth: nat, table: Table, isTime: seq<byte> -> bool)
    requires n < TWO63 && (!indef ==> n <= |body|)
    ensures ReadItem(Open(4, indef, n) + body, depth, table, isTime)
            == if depth >= MAX_DEPTH then Fail
               else
                 var xs := ReadItems(body, LengthOf(indef, n), depth + 1, table, isTime);
                 if xs.Fail? then Fail else Done(Arr(xs.value), xs.rest, xs.table)
  {
    hide ReadHead, Open, ReadItems;
    OpenRead(4, indef, n, body);
  }

  lemma MapRead(indef: bool, n: nat, body: seq<byte>, depth: nat, table: Table, isTime: seq<byte> -> bool)
    requires n < TWO63 && (!indef ==> 2 * n <= |body|)
    ensures ReadItem(Open(5, indef, n) + body, depth, table, isTime)
            == if depth >= MAX_DEPTH then Fail
               else
                 var ps := ReadPairs(body, LengthOf(indef, n), depth + 1, table, isTime);
                 if ps.Fail? || !Distinct(Keys(ps.value)) then Fail else Done(Map(ps.value), ps.rest, ps.table)
  {
    hide ReadHead, Open, ReadPairs;
    OpenRead(5, indef, n, body);
  }

  /** One more element of a container. */
  lemma ItemsStep(rest: seq<byte>, len: Length, depth: nat, table: Table, isTime: seq<byte> -> bool)
    requires len != Count(0) && (len.ToBreak? ==> rest != [] && rest[0] != BREAK)
    ensures ReadItems(rest, len, depth, table, isTime)
            == var x := ReadItem(rest, depth, table, isTime);
               if x.Fail? then Fail
               else
                 var xs := ReadItems(x.rest, len.Less(), depth, x.table, isTime);
                 if xs.Fail? then Fail else Done([x.value] + xs.value, xs.rest, xs.table)
  {
    hide ReadItem;
  }

  lemma DecimalParts(exp: int, text: seq<byte>, suffix: seq<byte>, depth: nat, table: Table, isTime: seq<byte> -> bool)
    requires IsInt64(exp) && IsIntText(text) && |text| < TWO63
    ensures var m := IntVal(text);
            ReadItems(IntegerBytes(exp) + (IntegerBytes(m) + suffix), Count(2), depth, table, isTime)
            == if IsBig(m) && depth >= MAX_DEPTH then Fail else Done([Int(exp), IntegerItem(m)], suffix, table)
  {
    hide ReadItem, IntegerBytes;
    var m := IntVal(text);
    IntegerRead(exp, IntegerBytes(m) + suffix, depth, table, isTime);
    IntegerTextRead(text, suffix, depth, table, isTime);
    ItemsStep(IntegerBytes(exp) + (IntegerBytes(m) + suffix), Count(2), depth, table, isTime);
    ItemsStep(IntegerBytes(m) + suffix, Count(1), depth, table, isTime);
    assert [Int(exp)] + ([IntegerItem(m)] + []) == [Int(exp), IntegerItem(m)];
  }

  lemma DecimalRead(text: seq<byte>, exp: int, suffix: seq<byte>, depth: nat, table: Table, isTime: seq<byte> -> bool)
    requires IsInt64(exp) && IsIntText(text) && |text| < TWO63
    ensures var m := IntVal(text);
            ReadItem(DecimalBytes(m, exp) + suffix, depth, table, isTime)
            == if depth + 1 < MAX_DEPTH && (IsBig(m) ==> depth + 2 < MAX_DEPTH) then Done(Dec(m, exp), suffix, table)
            else Fail
  {
    hide ReadItem, HeadBytes, ReadItems, IntegerBytes;
    var m := IntVal(text);
    var parts := IntegerBytes(exp) + (IntegerBytes(m) + suffix);
    assert |parts| >= 2;
    var content := HeadBytes(4, 2) + parts;
    assert DecimalBytes(m, exp) + suffix == HeadBytes(6, 4) + content;
    TagRead(4, content, depth, table, isTime);
    DecimalParts(exp, text, suffix, depth + 2, table, isTime);
    ArrayRead(false, 2, parts, depth + 1, table, isTime);
  }

  lemma TaggedIntegerRead(tag: nat, n: int, suffix: seq<byte>, depth: nat, table: Table, isTime: seq<byte> -> bool)
    requires tag == 1 || tag == 100
    requires IsInt64(n)
    ensures ReadItem(HeadBytes(6, tag) + IntegerBytes(n) + suffix, depth, table, isTime)
            == if depth < MAX_DEPTH then Done(if tag == 1 then TimeEpoch(n) else Date(n), suffix, table) else Fail
  {
    hide ReadItem, HeadBytes, IntegerBytes;
    assert HeadBytes(6, tag) + IntegerBytes(n) + suffix == HeadBytes(6, tag) + (IntegerBytes(n) + suffix);
    TagRead(tag, IntegerBytes(n) + suffix, depth, table, isTime);
    IntegerRead(n, suffix, depth + 1, table, isTime);
  }

  lemma UuidRead(s: seq<byte>, suffix: seq<byte>, depth: nat, table: Table, isTime: seq<byte> -> bool)
    requires |s| == 16
    ensures ReadItem(HeadBytes(6, 37) + BlobBytes(s) + suffix, depth, table, isTime)
            == if depth < MAX_DEPTH then Done(Uuid(s), suffix, table) else Fail
  {
    hide ReadItem, HeadBytes;
    assert HeadBytes(6, 37) + BlobBytes(s) + suffix == HeadBytes(6, 37) + (BlobBytes(s) + suffix);
    TagRead(37, BlobBytes(s) + suffix, depth, table, isTime);
    StringRead(2, s, suffix, depth + 1, table, isTime);
  }

  lemma FloatRead(bits: nat, suffix: seq<byte>, depth: nat, table: Table, isTime: seq<byte> -> bool)
    requires IsUint64(bits)
    ensures ReadItem(([0xfb] + ToBE(bits, 8)) + suffix, depth, table, isTime) == Done(Float(8, bits), suffix, table)
  {
    hide ReadHead, ToBE;
    FieldWidths();
    WideHeadRoundTrip(7, 27, 8, bits, suffix);
  }

  /** Scalars need no induction. */
  lemma ScalarRead(d: Doc, suffix: seq<byte>, depth: nat, table: Table, isTime: seq<byte> -> bool)
    requires Typed(d) && !d.DArr? && !d.DMap? && !d.DRec?
    ensures ReadItem(Encode(d, {}).bytes + suffix, depth, table, isTime)
            == if Fits(d, depth) then Done(Meaning(d), suffix, table) else Fail
  {
    hide ReadItem, HeadBytes, IntegerBytes, ValidUtf8, ToBE;
    match d
    case DNull => SimpleRead(0xf6, suffix, depth, table, isTime);
    case DBool(b) => SimpleRead(if b then 0xf5 else 0xf4, suffix, depth, table, isTime);
    case DInteger(text) => IntegerTextRead(text, suffix, depth, table, isTime);
    case DDecimal(text, exp) => DecimalRead(text, exp, suffix, depth, table, isTime);
    case DFloat(bits) => FloatRead(bits, suffix, depth, table, isTime);
    case DText(s) => StringRead(3, s, suffix, depth, table, isTime);
    case DBlob(s) => StringRead(2, s, suffix, depth, table, isTime);
    case DEpoch(sec) => TaggedIntegerRead(1, sec, suffix, depth, table, isTime);
    case DDate(days) => TaggedIntegerRead(100, days, suffix, depth, table, isTime);
    case DUuid(s) => UuidRead(s, suffix, depth, table, isTime);
  }

  lemma SimpleRead(c: byte, suffix: seq<byte>, depth: nat, table: Table, isTime: seq<byte> -> bool)
    requires 0xf4 <= c <= 0xf6
    ensures ReadItem([c] + suffix, depth, table, isTime)
            == Done(if c == 0xf6 then Null else Bool(c == 0xf5), suffix, table)
  {
    assert ([c] + suffix)[1..] == suffix;
  }

  // ---- containers --------------------------------------------------------------------------

  lemma HeadNoBreak(major: nat, v: nat)
    requires major < 8 && IsUint64(v)
    ensures HeadBytes(major, v)[0] != BREAK
  {
  }

  /** No item starts with the break byte, so an indefinite container ends where the writer ended it. */
  lemma NoBreak(d: Doc, defined: set<nat>)
    requires Typed(d)
    ensures Encode(d, defined).bytes != [] && Encode(d, defined).bytes[0] != BREAK
  {
    hide HeadBytes;
    forall major: nat, v: nat | major < 8 && IsUint64(v) ensures HeadBytes(major, v)[0] != BREAK {
      HeadNoBreak(major, v);
    }
  }

  lemma TextNoBreak(s: seq<byte>)
    ensures TextBytes(s)[0] != BREAK
  {
    HeadNoBreak(3, |s| % TWO64);
  }

  lemma {:induction false} EnoughBytes(ds: seq<Doc>, defined: set<nat>)
    requires TypedAll(ds)
    ensures |EncodeAll(ds, defined).bytes| >= |ds|
  {
    hide Encode;
    if ds != [] {
      NoBreak(ds[0], defined);
      EnoughBytes(ds[1..], Encode(ds[0], defined).defined);
    }
  }

  lemma {:induction false} EnoughFieldBytes(keys: seq<seq<byte>>, values: seq<Doc>, defined: set<nat>)
    requires |keys| == |values| && TypedAll(values)
    ensures |EncodeFields(keys, values, defined).bytes| >= 2 * |keys|
  {
    hide Encode, TextBytes;
    if values != [] {
      NoBreak(values[0], defined);
      EnoughFieldBytes(keys[1..], values[1..], Encode(values[0], defined).defined);
    }
  }

  lemma {:induction false} EnoughNameBytes(names: seq<seq<byte>>)
    ensures |NamesBytes(names)| >= |names|
  {
    hide TextBytes;
    if names != [] {
      EnoughNameBytes(names[1..]);
    }
  }

  // ---- structures ----------------------------------------------------------------------------

  ghost predicate AllValid(names: seq<seq<byte>>) {
    forall i :: 0 <= i < |names| ==> ValidUtf8(names[i])
  }

  lemma {:induction false} NamesRead(names: seq<seq<byte>>, suffix: seq<byte>, depth: nat, table: Table,
                                     isTime: seq<byte> -> bool)
    requires forall i :: 0 <= i < |names| ==> |names[i]| < TWO63
    ensures ReadNames(NamesBytes(names) + suffix, |names|, depth, table, isTime)
            == if AllValid(names) then Done(names, suffix, table) else Fail
  {
    hide ReadItem, TextBytes, ValidUtf8;
    if names == [] {
      assert NamesBytes(names) + suffix == suffix;
    } else {
      var rest := NamesBytes(names[1..]) + suffix;
      assert NamesBytes(names) + suffix == TextBytes(names[0]) + rest;
      TextRead(names[0], rest, depth, table, isTime);
      NamesRead(names[1..], suffix, depth, table, isTime);
      assert names == [names[0]] + names[1..];
    }
  }

  lemma TextRead(s: seq<byte>, suffix: seq<byte>, depth: nat, table: Table, isTime: seq<byte> -> bool)
    requires |s| < TWO63
    ensures ReadItem(TextBytes(s) + suffix, depth, table, isTime) == if ValidUtf8(s) then Done(Text(s), suffix, table)
            else Fail
  {
    hide ReadItem, HeadBytes, ValidUtf8;
    StringRead(3, s, suffix, depth, table, isTime);
  }

  lemma StructureTagRead(tag: nat, n: nat, body: seq<byte>, depth: nat, table: Table, isTime: seq<byte> -> bool)
    requires IsStructureTag(tag) && n < TWO64 && n <= |body|
    ensures ReadItem(HeadBytes(6, tag) + (HeadBytes(4, n) + body), depth, table, isTime)
            == if depth >= MAX_DEPTH then Fail else ReadStructure(tag, HeadBytes(4, n) + body, depth, table, isTime)
    ensures var h := ReadHead(HeadBytes(4, n) + body);
            h.Head? && h.major == 4 && h.val == n && !h.indef && h.rest == body
  {
    hide ReadHead, HeadBytes, ReadStructure;
    HeadRoundTrip(6, tag, HeadBytes(4, n) + body);
    HeadRoundTrip(4, n, body);
  }

  /** A reference reads the record of the names its id was defined with. */
  lemma RefRead(id: nat, n: nat, body: seq<byte>, depth: nat, table: Table, isTime: seq<byte> -> bool)
    requires id < MAX_STRUCTURES && n < TWO63 && n <= |body|
    requires id in table && |table[id]| == n
    ensures ReadItem(StructureRefBytes(id, n) + body, depth, table, isTime)
            == if depth + 1 >= MAX_DEPTH then Fail else ReadRecord(table[id], body, depth, table, isTime)
  {
    hide ReadItem, ReadHead, HeadBytes, ReadRecord;
    var tag := STRUCTURE_TAG_BASE + id;
    assert StructureRefBytes(id, n) + body == HeadBytes(6, tag) + (HeadBytes(4, n) + body);
    StructureTagRead(tag, n, body, depth, table, isTime);
  }

  lemma DefinitionRead(h: HeadRead, id: nat, names: seq<seq<byte>>, body: seq<byte>, depth: nat, table: Table,
                       isTime: seq<byte> -> bool)
    requires id < MAX_STRUCTURES && |names| < TWO63 && forall i :: 0 <= i < |names| ==> |names[i]| < TWO63
    requires h.Head? && h.val == |names| + 2
    requires h.rest == HeadBytes(0, STRUCTURE_TAG_BASE + id) + (HeadBytes(4, |names|) + (NamesBytes(names) + body))
    ensures ReadDefinition(h, depth, table, isTime)
            == if NamesOk(names) then Done(names, body, table[id := names]) else Fail
  {
    hide ReadItem, ReadHead, HeadBytes, ReadNames, NamesBytes, ValidUtf8, IntegerBytes;
    var list := NamesBytes(names) + body;
    EnoughNameBytes(names);
    IdRead(id, HeadBytes(4, |names|) + list, depth + 2, table, isTime);
    HeadRoundTrip(4, |names|, list);
    NamesRead(names, body, depth + 3, table, isTime);
  }

  lemma IdRead(id: nat, rest: seq<byte>, depth: nat, table: Table, isTime: seq<byte> -> bool)
    requires id < MAX_STRUCTURES
    ensures ReadItem(HeadBytes(0, STRUCTURE_TAG_BASE + id) + rest, depth, table, isTime)
            == Done(Int(STRUCTURE_TAG_BASE + id), rest, table)
  {
    hide ReadHead, HeadBytes;
    HeadRoundTrip(0, STRUCTURE_TAG_BASE + id, rest);
  }

  /** A definition puts its names in the table, then reads the record that follows it. */
  lemma DefRead(id: nat, names: seq<seq<byte>>, body: seq<byte>, depth: nat, table: Table, isTime: seq<byte> -> bool)
    requires id < MAX_STRUCTURES && |names| < TWO63 && forall i :: 0 <= i < |names| ==> |names[i]| < TWO63
    requires |names| <= |body|
    ensures ReadItem(StructureDefBytes(id, names) + body, depth, table, isTime)
            == if depth + 1 >= MAX_DEPTH || !NamesOk(names) then Fail
               else ReadRecord(names, body, depth, table[id := names], isTime)
  {
    hide ReadItem, ReadHead, HeadBytes, ReadRecord, NamesBytes, ReadDefinition, NamesOk;
    var inner := HeadBytes(0, STRUCTURE_TAG_BASE + id) + (HeadBytes(4, |names|) + (NamesBytes(names) + body));
    assert StructureDefBytes(id, names) + body == HeadBytes(6, TAG_STRUCTURE_DEF) + (HeadBytes(4, |names| + 2) + inner);
    StructureTagRead(TAG_STRUCTURE_DEF, |names| + 2, inner, depth, table, isTime);
    DefinitionRead(ReadHead(HeadBytes(4, |names| + 2) + inner), id, names, body, depth, table, isTime);
  }

  // ---- every document ------------------------------------------------------------------------

  /** The reader inverts the writer on one item, and the two structure tables stay in step. */
  lemma {:induction false} DocRead(d: Doc, suffix: seq<byte>, depth: nat, table: Table, defined: set<nat>,
                                   plan: seq<seq<seq<byte>>>, isTime: seq<byte> -> bool)
    requires Typed(d) && Planned(d, plan) && InStep(table, defined, plan)
    ensures var o := Encode(d, defined);
            ReadsAs(ReadItem(o.bytes + suffix, depth, table, isTime), Fits(d, depth), Meaning(d), suffix, o.defined,
                    plan)
    decreases d, 1
  {
    hide ReadItem, EncodeAll, EncodeFields, HeadBytes, IntegerBytes, ReadItems, ReadPairs;
    match d
    case DArr(indef, items) =>
      var o := EncodeAll(items, defined);
      var body := o.bytes + (Close(indef) + suffix);
      assert Encode(d, defined).bytes + suffix == Open(4, indef, |items|) + body;
      EnoughBytes(items, defined);
      ArrayRead(indef, |items|, body, depth, table, isTime);
      AllRead(indef, items, suffix, depth + 1, table, defined, plan, isTime);
    case DMap(indef, keys, values) =>
      MapDocRead(d, indef, suffix, depth, table, defined, plan, isTime);
    case DRec(id, keys, values) =>
      if id < 0 {
        MapDocRead(d, false, suffix, depth, table, defined, plan, isTime);
      } else {
        RecordRead(d, suffix, depth, table, defined, plan, isTime);
      }
    case _ => ScalarRead(d, suffix, depth, table, isTime);
  }

  lemma {:induction false} MapDocRead(d: Doc, indef: bool, suffix: seq<byte>, depth: nat, table: Table,
                                      defined: set<nat>, plan: seq<seq<seq<byte>>>, isTime: seq<byte> -> bool)
    requires (d.DMap? && d.indef == indef) || (d.DRec? && d.id < 0 && !indef)
    requires Typed(d) && Planned(d, plan) && InStep(table, defined, plan)
    ensures var o := Encode(d, defined);
            ReadsAs(ReadItem(o.bytes + suffix, depth, table, isTime), Fits(d, depth), Meaning(d), suffix, o.defined,
                    plan)
    decreases d, 0
  {
    hide ReadItem, EncodeAll, EncodeFields, Encode, Open, ReadItems, ReadPairs, Typed, Planned;
    MapParts(d, indef, suffix, depth, defined, plan);
    var o := EncodeFields(d.keys, d.values, defined);
    var body := o.bytes + (Close(indef) + suffix);
    EnoughFieldBytes(d.keys, d.values, defined);
    MapRead(indef, |d.keys|, body, depth, table, isTime);
    FieldsRead(indef, d.keys, d.values, suffix, depth + 1, table, defined, plan, isTime);
    assert Keys(Zip(d.keys, MeaningAll(d.values))) == d.keys;
  }

  /** A map, or a record without an id, is its opening, its fields and its end. */
  lemma MapParts(d: Doc, indef: bool, suffix: seq<byte>, depth: nat, defined: set<nat>, plan: seq<seq<seq<byte>>>)
    requires (d.DMap? && d.indef == indef) || (d.DRec? && d.id < 0 && !indef)
    requires Typed(d) && Planned(d, plan)
    ensures TypedFields(d.keys, d.values) && TypedAll(d.values) && PlannedAll(d.values, plan)
    ensures var o := EncodeFields(d.keys, d.values, defined);
            && Encode(d, defined).bytes + suffix == Open(5, indef, |d.keys|) + (o.bytes + (Close(indef) + suffix))
            && Encode(d, defined).defined == o.defined
  {
    hide EncodeAll, EncodeFields, HeadBytes;
    var o := EncodeFields(d.keys, d.values, defined);
    Ends(Open(5, indef, |d.keys|), o.bytes, Close(indef), suffix);
  }

  lemma Ends(open: seq<byte>, inner: seq<byte>, close: seq<byte>, suffix: seq<byte>)
    ensures (open + (inner + close)) + suffix == open + (inner + (close + suffix))
    ensures close == [] ==> (open + inner) + suffix == open + (inner + (close + suffix))
  {
  }

  lemma {:induction false} RecordRead(d: Doc, suffix: seq<byte>, depth: nat, table: Table, defined: set<nat>,
                                      plan: seq<seq<seq<byte>>>, isTime: seq<byte> -> bool)
    requires d.DRec? && d.id >= 0
    requires Typed(d) && Planned(d, plan) && InStep(table, defined, plan)
    ensures var o := Encode(d, defined);
            ReadsAs(ReadItem(o.bytes + suffix, depth, table, isTime), Fits(d, depth), Meaning(d), suffix, o.defined,
                    plan)
    decreases d, 0
  {
    hide ReadItem, EncodeAll, HeadBytes, ReadItems, StructureDefBytes, StructureRefBytes, NamesOk;
    var id, keys, values := d.id, d.keys, d.values;
    if id in defined {
      var o := EncodeAll(values, defined);
      var body := o.bytes + suffix;
      assert Encode(d, defined).bytes + suffix == StructureRefBytes(id, |keys|) + body;
      EnoughBytes(values, defined);
      RefRead(id, |keys|, body, depth, table, isTime);
      AllRead(false, values, suffix, depth + 2, table, defined, plan, isTime);
      assert body == o.bytes + (Close(false) + suffix);
    } else {
      var o := EncodeAll(values, defined + {id});
      var body := o.bytes + suffix;
      assert Encode(d, defined).bytes + suffix == StructureDefBytes(id, keys) + body;
      EnoughBytes(values, defined + {id});
      DefRead(id, keys, body, depth, table, isTime);
      if NamesOk(keys) {
        AllRead(false, values, suffix, depth + 2, table[id := keys], defined + {id}, plan, isTime);
        assert body == o.bytes + (Close(false) + suffix);
      }
    }
  }

  lemma {:induction false} AllRead(indef: bool, ds: seq<Doc>, suffix: seq<byte>, depth: nat, table: Table,
                                   defined: set<nat>, plan: seq<seq<seq<byte>>>, isTime: seq<byte> -> bool)
    requires TypedAll(ds) && PlannedAll(ds, plan) && InStep(table, defined, plan)
    ensures var o := EncodeAll(ds, defined);
            ReadsAs(ReadItems(o.bytes + (Close(indef) + suffix), LengthOf(indef, |ds|), depth, table, isTime),
                    FitsAll(ds, depth), MeaningAll(ds), suffix, o.defined, plan)
    decreases ds, 1
  {
    hide ReadItem, Encode, Fits, Meaning;
    if ds == [] {
      assert EncodeAll(ds, defined).bytes + (Close(indef) + suffix) == Close(indef) + suffix;
      assert indef ==> (Close(indef) + suffix)[1..] == suffix;
    } else {
      var o := Encode(ds[0], defined);
      var os := EncodeAll(ds[1..], o.defined);
      var rest := os.bytes + (Close(indef) + suffix);
      assert EncodeAll(ds, defined).bytes + (Close(indef) + suffix) == o.bytes + rest;
      NoBreak(ds[0], defined);
      DocRead(ds[0], rest, depth, table, defined, plan, isTime);
      var x := ReadItem(o.bytes + rest, depth, table, isTime);
      ItemsStep(o.bytes + rest, LengthOf(indef, |ds|), depth, table, isTime);
      if x.Done? {
        AllRead(indef, ds[1..], suffix, depth, x.table, o.defined, plan, isTime);
      }
    }
  }

  lemma {:induction false} FieldsRead(indef: bool, keys: seq<seq<byte>>, values: seq<Doc>, suffix: seq<byte>,
                                      depth: nat, table: Table, defined: set<nat>, plan: seq<seq<seq<byte>>>,
                                      isTime: seq<byte> -> bool)
    requires TypedFields(keys, values) && TypedAll(values) && PlannedAll(values, plan) && InStep(table, defined, plan)
    ensures var o := EncodeFields(keys, values, defined);
            ReadsAs(ReadPairs(o.bytes + (Close(indef) + suffix), LengthOf(indef, |keys|), depth, table, isTime),
                    AllValid(keys) && FitsAll(values, depth), Zip(keys, MeaningAll(values)), suffix, o.defined, plan)
    decreases values, 1
  {
    hide ReadItem, Encode, Fits, Meaning, TextBytes, ValidUtf8, Zip, Typed, Planned;
    if values == [] {
      assert EncodeFields(keys, values, defined).bytes + (Close(indef) + suffix) == Close(indef) + suffix;
      assert indef ==> (Close(indef) + suffix)[1..] == suffix;
    } else {
      var o := Encode(values[0], defined);
      var os := EncodeFields(keys[1..], values[1..], o.defined);
      var rest := os.bytes + (Close(indef) + suffix);
      var first := TextBytes(keys[0]) + (o.bytes + rest);
      assert EncodeFields(keys, values, defined).bytes + (Close(indef) + suffix) == first;
      TextNoBreak(keys[0]);
      TextRead(keys[0], o.bytes + rest, depth, table, isTime);
      DocRead(values[0], rest, depth, table, defined, plan, isTime);
      var x := ReadItem(o.bytes + rest, depth, table, isTime);
      PairsStep(first, LengthOf(indef, |keys|), depth, table, isTime);
      if x.Done? && ValidUtf8(keys[0]) {
        FieldsRead(indef, keys[1..], values[1..], suffix, depth, x.table, o.defined, plan, isTime);
        ZipCons(keys, MeaningAll(values));
      }
    }
  }

  lemma ZipCons(names: seq<seq<byte>>, values: seq<Item>)
    requires |names| == |values| && names != []
    ensures Zip(names, values) == [(names[0], values[0])] + Zip(names[1..], values[1..])
  {
  }

  lemma PairsStep(rest: seq<byte>, len: Length, depth: nat, table: Table, isTime: seq<byte> -> bool)
    requires len != Count(0) && (len.ToBreak? ==> rest != [] && rest[0] != BREAK)
    ensures ReadPairs(rest, len, depth, table, isTime)
            == var k := ReadItem(rest, depth, table, isTime);
               if k.Fail? || !k.value.Text? then Fail
               else
                 var v := ReadItem(k.rest, depth, k.table, isTime);
                 if v.Fail? then Fail
                 else
                   var ps := ReadPairs(v.rest, len.Less(), depth, v.table, isTime);
                   if ps.Fail? then Fail else Done([(k.value.s, v.value)] + ps.value, ps.rest, ps.table)
  {
    hide ReadItem;
  }

  // ---- the whole document ----------------------------------------------------------------------

  /** A document written on its own reads back whole if and only if it fits; nothing may follow it. */
  lemma DocumentRead(d: Doc, suffix: seq<byte>, plan: seq<seq<seq<byte>>>, isTime: seq<byte> -> bool)
    requires Typed(d) && Planned(d, plan)
    ensures var r := ReadDocument(Encode(d, {}).bytes + suffix, isTime);
            if Fits(d, 0) && suffix == [] then r.Done? && r.value == Meaning(d) else r.Fail?
  {
    hide ReadItem, Encode, Fits, Meaning;
    DocRead(d, suffix, 0, map[], {}, plan, isTime);
  }

  /** Encodings are prefix-free: two documents one of which starts the other's bytes are the same bytes and value. */
  lemma PrefixFree(d: Doc, e: Doc, p: seq<seq<seq<byte>>>, q: seq<seq<seq<byte>>>, depth: nat, more: seq<byte>,
                   isTime: seq<byte> -> bool)
    requires Typed(d) && Planned(d, p) && Fits(d, depth)
    requires Typed(e) && Planned(e, q) && Fits(e, depth)
    requires Encode(d, {}).bytes + more == Encode(e, {}).bytes
    ensures more == [] && Meaning(d) == Meaning(e)
  {
    hide ReadItem, Encode, Fits, Meaning;
    DocRead(d, more, depth, map[], {}, p, isTime);
    DocRead(e, [], depth, map[], {}, q, isTime);
    assert Encode(e, {}).bytes + [] == Encode(e, {}).bytes;
  }

  // ---- structures and maps say the same -----------------------------------------------------------

  lemma {:induction false} AsMapsKeeps(d: Doc)
    requires Typed(d)
    ensures Typed(AsMaps(d)) && Planned(AsMaps(d), [])
    ensures Meaning(AsMaps(d)) == Meaning(d)
    ensures forall depth: nat, less: nat :: less <= depth && Fits(d, depth) ==> Fits(AsMaps(d), less)
    decreases d, 0
  {
    if d.DArr? {
      AsMapsAllKeep(d.items);
    } else if d.DMap? || d.DRec? {
      AsMapsAllKeep(d.values);
    }
  }

  lemma {:induction false} AsMapsAllKeep(ds: seq<Doc>)
    requires TypedAll(ds)
    ensures TypedAll(AsMapsAll(ds)) && PlannedAll(AsMapsAll(ds), [])
    ensures MeaningAll(AsMapsAll(ds)) == MeaningAll(ds)
    ensures forall depth: nat, less: nat :: less <= depth && FitsAll(ds, depth) ==> FitsAll(AsMapsAll(ds), less)
    decreases ds, 0
  {
    hide AsMaps, Typed, Planned, Fits, Meaning;
    if ds != [] {
      AsMapsKeeps(ds[0]);
      AsMapsAllKeep(ds[1..]);
      assert AsMapsAll(ds)[1..] == AsMapsAll(ds[1..]);
    }
  }

  /** A response written with structures reads as the same value as the response written with maps. */
  lemma StructuresReadAsMaps(d: Doc, plan: seq<seq<seq<byte>>>, isTime: seq<byte> -> bool)
    requires Typed(d) && Planned(d, plan) && Fits(d, 0)
    ensures Typed(AsMaps(d))
    ensures var structured := ReadDocument(Encode(d, {}).bytes, isTime);
            var plain := ReadDocument(Encode(AsMaps(d), {}).bytes, isTime);
            structured.Done? && plain.Done? && structured.value == plain.value
  {
    hide ReadDocument, Encode, Fits, Meaning, Typed, Planned;
    AsMapsKeeps(d);
    DocumentRead(d, [], plan, isTime);
    DocumentRead(AsMaps(d), [], [], isTime);
    assert Encode(d, {}).bytes + [] == Encode(d, {}).bytes;
    assert Encode(AsMaps(d), {}).bytes + [] == Encode(AsMaps(d), {}).bytes;
  }
}
