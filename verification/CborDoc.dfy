/**
 What a response asks the CBOR writer for, and the bytes it appends: cborenc/encode.go and the record
 structures of query/result_cbor.go. A record whose plan has a structure id is written as a definition
 the first time and as a reference afterwards; `defined` is the set of ids defined so far, carried from
 one item of the response to the next.
 */
module CborDoc {
  import opened Bytes
  import opened Utf8
  import opened CborItem
  import opened CborEncode

  datatype Doc =
    | DNull
    | DBool(b: bool)
    | DInteger(text: seq<byte>)
    | DDecimal(text: seq<byte>, exp: int)
    | DFloat(bits: nat)
    | DText(s: seq<byte>)
    | DBlob(s: seq<byte>)
    | DEpoch(sec: int)
    | DDate(days: int)
    | DUuid(s: seq<byte>)
    | DArr(indef: bool, items: seq<Doc>)
    | DMap(indef: bool, keys: seq<seq<byte>>, values: seq<Doc>)
    | DRec(id: int, keys: seq<seq<byte>>, values: seq<Doc>)

  datatype Out = Out(bytes: seq<byte>, defined: set<nat>)

  // ---- writing -------------------------------------------------------------------------

  function DecimalBytes(mantissa: int, exp: int): (s: seq<byte>)
    requires IsInt64(exp)
  {
    HeadBytes(6, 4) + HeadBytes(4, 2) + IntegerBytes(exp) + IntegerBytes(mantissa)
  }

  method AppendDecimal(dst: seq<byte>, mantissa: seq<byte>, exp: int) returns (out: seq<byte>)
    requires IsIntText(mantissa) && IsInt64(exp)
    ensures out == dst + DecimalBytes(IntVal(mantissa), exp)
  {
    hide HeadBytes, IntegerBytes, IntVal;
    out := AppendHead(AppendHead(dst, 6, 4), 4, 2);
    out := AppendInteger(out + IntegerBytes(exp), mantissa);
  }

  function NamesBytes(names: seq<seq<byte>>): seq<byte> {
    if names == [] then [] else TextBytes(names[0]) + NamesBytes(names[1..])
  }

  function StructureDefBytes(id: nat, names: seq<seq<byte>>): seq<byte>
    requires id < MAX_STRUCTURES && |names| < TWO63
  {
    HeadBytes(6, TAG_STRUCTURE_DEF) + (HeadBytes(4, |names| + 2) + (HeadBytes(0, STRUCTURE_TAG_BASE + id)
    + (HeadBytes(4, |names|) + NamesBytes(names))))
  }

  function StructureRefBytes(id: nat, n: nat): seq<byte>
    requires id < MAX_STRUCTURES && n < TWO63
  {
    HeadBytes(6, STRUCTURE_TAG_BASE + id) + HeadBytes(4, n)
  }

  /** AppendStructureDef appends its names one by one. */
  method AppendStructureDef(dst: seq<byte>, id: nat, names: seq<seq<byte>>) returns (out: seq<byte>)
    requires id < MAX_STRUCTURES && |names| < TWO63
    ensures out == dst + StructureDefBytes(id, names)
  {
    hide HeadBytes, TextBytes;
    var head := AppendHead(AppendHead(AppendHead(AppendHead(dst, 6, TAG_STRUCTURE_DEF), 4, |names| + 2), 0,
                                      STRUCTURE_TAG_BASE + id), 4, |names|);
    out := head;
    for i := 0 to |names|
      invariant out + NamesBytes(names[i..]) == head + NamesBytes(names)
    {
      var next := TextBytes(names[i]);
      assert names[i..][0] == names[i] && names[i..][1..] == names[i + 1..];
      assert out + (next + NamesBytes(names[i + 1..])) == (out + next) + NamesBytes(names[i + 1..]);
      out := out + next;
    }
    assert out + [] == out;
  }

  function Encode(d: Doc, defined: set<nat>): (o: Out)
    requires Typed(d)
    decreases d, 0
  {
    match d
    case DNull => Out([0xf6], defined)
    case DBool(b) => Out([if b then 0xf5 else 0xf4], defined)
    case DInteger(text) => Out(IntegerBytes(IntVal(text)), defined)
    case DDecimal(text, exp) => Out(DecimalBytes(IntVal(text), exp), defined)
    case DFloat(bits) => Out([0xfb] + ToBE(bits, 8), defined)
    case DText(s) => Out(TextBytes(s), defined)
    case DBlob(s) => Out(BlobBytes(s), defined)
    case DEpoch(sec) => Out(HeadBytes(6, 1) + IntegerBytes(sec), defined)
    case DDate(days) => Out(HeadBytes(6, 100) + IntegerBytes(days), defined)
    case DUuid(s) => Out(HeadBytes(6, 37) + BlobBytes(s), defined)
    case DArr(indef, items) =>
      var o := EncodeAll(items, defined);
      Out(Open(4, indef, |items|) + (o.bytes + Close(indef)), o.defined)
    case DMap(indef, keys, values) =>
      var o := EncodeFields(keys, values, defined);
      Out(Open(5, indef, |keys|) + (o.bytes + Close(indef)), o.defined)
    case DRec(id, keys, values) =>
      if id < 0 then
        var o := EncodeFields(keys, values, defined);
        Out(HeadBytes(5, |keys|) + o.bytes, o.defined)
      else if id in defined then
        var o := EncodeAll(values, defined);
        Out(StructureRefBytes(id, |keys|) + o.bytes, o.defined)
      else
        var o := EncodeAll(values, defined + {id});
        Out(StructureDefBytes(id, keys) + o.bytes, o.defined)
  }

  /** Only records look at the table. */
  lemma ScalarEncode(d: Doc, defined: set<nat>)
    requires Typed(d) && !d.DArr? && !d.DMap? && !d.DRec?
    ensures Encode(d, defined) == Out(Encode(d, {}).bytes, defined)
  {
    hide HeadBytes, IntegerBytes, DecimalBytes, TextBytes, BlobBytes, ToBE;
  }

  function Open(major: nat, indef: bool, n: nat): (s: seq<byte>)
    requires 4 <= major <= 5 && n < TWO63
    ensures s != []
  {
    if indef then [major * 32 + 31] else HeadBytes(major, n)
  }

  function Close(indef: bool): seq<byte> {
    if indef then [BREAK] else []
  }

  function EncodeAll(ds: seq<Doc>, defined: set<nat>): (o: Out)
    requires TypedAll(ds)
    decreases ds, 0
  {
    if ds == [] then Out([], defined)
    else
      var o := Encode(ds[0], defined);
      var os := EncodeAll(ds[1..], o.defined);
      Out(o.bytes + os.bytes, os.defined)
  }

  function EncodeFields(keys: seq<seq<byte>>, values: seq<Doc>, defined: set<nat>): (o: Out)
    requires |keys| == |values| && TypedAll(values)
    decreases values, 0
  {
    if values == [] then Out([], defined)
    else
      var o := Encode(values[0], defined);
      var os := EncodeFields(keys[1..], values[1..], o.defined);
      Out(TextBytes(keys[0]) + (o.bytes + os.bytes), os.defined)
  }

  // ---- what the types of the writer's arguments already say -------------------------------

  /** Text that writes integers, numbers in the range of their Go type, lengths a slice can have. */
  ghost predicate Typed(d: Doc)
    decreases d, 0
  {
    match d
    case DInteger(text) => IsIntText(text) && |text| < TWO63
    case DDecimal(text, exp) => IsIntText(text) && |text| < TWO63 && IsInt64(exp)
    case DFloat(bits) => IsUint64(bits)
    case DText(s) => |s| < TWO63
    case DBlob(s) => |s| < TWO63
    case DEpoch(sec) => IsInt64(sec)
    case DDate(days) => IsInt64(days)
    case DUuid(s) => |s| == 16
    case DArr(_, items) => |items| < TWO63 && TypedAll(items)
    case DMap(_, keys, values) => TypedFields(keys, values) && TypedAll(values)
    case DRec(id, keys, values) => id < MAX_STRUCTURES && TypedFields(keys, values) && TypedAll(values)
    case _ => true
  }

  ghost predicate TypedAll(ds: seq<Doc>)
    decreases ds, 0
  {
    ds == [] || (Typed(ds[0]) && TypedAll(ds[1..]))
  }

  ghost predicate TypedFields(keys: seq<seq<byte>>, values: seq<Doc>) {
    |keys| == |values| && |keys| < TWO63 && forall i :: 0 <= i < |keys| ==> |keys[i]| < TWO63
  }

  // ---- what the document means -----------------------------------------------------------

  function IntegerItem(n: int): Item {
    if -TWO64 <= n < TWO64 then Int(n) else Big(n)
  }

  ghost function Meaning(d: Doc): Item
    requires Typed(d)
    decreases d, 0
  {
    match d
    case DNull => Null
    case DBool(b) => Bool(b)
    case DInteger(text) => IntegerItem(IntVal(text))
    case DDecimal(text, exp) => Dec(IntVal(text), exp)
    case DFloat(bits) => Float(8, bits)
    case DText(s) => Text(s)
    case DBlob(s) => Blob(s)
    case DEpoch(sec) => TimeEpoch(sec)
    case DDate(days) => Date(days)
    case DUuid(s) => Uuid(s)
    case DArr(_, items) => Arr(MeaningAll(items))
    case DMap(_, keys, values) => Map(Zip(keys, MeaningAll(values)))
    case DRec(_, keys, values) => Map(Zip(keys, MeaningAll(values)))
  }

  ghost function MeaningAll(ds: seq<Doc>): (xs: seq<Item>)
    requires TypedAll(ds)
    ensures |xs| == |ds|
    decreases ds, 0
  {
    if ds == [] then [] else [Meaning(ds[0])] + MeaningAll(ds[1..])
  }

  // ---- when it can be read back ------------------------------------------------------------

  /** Names a map or a structure can have: valid text, all different. */
  ghost predicate NamesOk(names: seq<seq<byte>>) {
    Distinct(names) && forall i :: 0 <= i < |names| ==> ValidUtf8(names[i])
  }

  predicate IsBig(n: int) {
    !(-TWO64 <= n < TWO64)
  }

  /** The document at this depth stays within the reader's nesting limit, and its text and keys are valid. */
  ghost predicate Fits(d: Doc, depth: nat)
    requires Typed(d)
    decreases d, 0
  {
    match d
    case DInteger(text) => IsBig(IntVal(text)) ==> depth < MAX_DEPTH
    case DDecimal(text, _) => depth + 1 < MAX_DEPTH && (IsBig(IntVal(text)) ==> depth + 2 < MAX_DEPTH)
    case DText(s) => ValidUtf8(s)
    case DEpoch(_) => depth < MAX_DEPTH
    case DDate(_) => depth < MAX_DEPTH
    case DUuid(_) => depth < MAX_DEPTH
    case DArr(_, items) => depth < MAX_DEPTH && FitsAll(items, depth + 1)
    case DMap(_, keys, values) => depth < MAX_DEPTH && NamesOk(keys) && FitsAll(values, depth + 1)
    case DRec(id, keys, values) =>
      if id < 0 then depth < MAX_DEPTH && NamesOk(keys) && FitsAll(values, depth + 1)
      else depth + 1 < MAX_DEPTH && NamesOk(keys) && FitsAll(values, depth + 2)
    case _ => true
  }

  ghost predicate FitsAll(ds: seq<Doc>, depth: nat)
    requires TypedAll(ds)
    decreases ds, 0
  {
    ds == [] || (Fits(ds[0], depth) && FitsAll(ds[1..], depth))
  }

  /** The structure ids of the document are those the response gave their name lists. */
  ghost predicate Planned(d: Doc, plan: seq<seq<seq<byte>>>)
    decreases d, 0
  {
    match d
    case DArr(_, items) => PlannedAll(items, plan)
    case DMap(_, _, values) => PlannedAll(values, plan)
    case DRec(id, keys, values) => (id >= 0 ==> id < |plan| && plan[id] == keys) && PlannedAll(values, plan)
    case _ => true
  }

  ghost predicate PlannedAll(ds: seq<Doc>, plan: seq<seq<seq<byte>>>)
    decreases ds, 0
  {
    ds == [] || (Planned(ds[0], plan) && PlannedAll(ds[1..], plan))
  }

  /** The same document with every record written as a map. */
  function AsMaps(d: Doc): Doc
    decreases d, 0
  {
    match d
    case DArr(indef, items) => DArr(indef, AsMapsAll(items))
    case DMap(indef, keys, values) => DMap(indef, keys, AsMapsAll(values))
    case DRec(_, keys, values) => DRec(-1, keys, AsMapsAll(values))
    case _ => d
  }

  function AsMapsAll(ds: seq<Doc>): (rs: seq<Doc>)
    ensures |rs| == |ds|
    decreases ds, 0
  {
    if ds == [] then [] else [AsMaps(ds[0])] + AsMapsAll(ds[1..])
  }
}
