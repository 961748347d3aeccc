/**
 The CBOR reader of query/node_cbor.go as a function: what each byte string reads as.

 A reader is a function of the bytes that are left (`rest`), the nesting depth and the structures
 defined so far; it fails or returns what it read, the bytes it left and the structures defined by
 then. `CborDecoder` holds the one-pass arena reader and proves it computes these functions.
 */
module CborItem {
  import opened Bytes
  import opened Utf8

  const MAX_DEPTH: nat := 64
  const TAG_STRUCTURE_DEF: nat := 0xdfff
  const STRUCTURE_TAG_BASE: nat := 0xe000
  const MAX_STRUCTURES: nat := 0x1fff
  const BREAK: byte := 0xff

  /** What a document's item is. A structure reads as the map it stands for. */
  datatype Item =
    | Null
    | Bool(b: bool)
    | Int(n: int)                                // major types 0 and 1
    | Big(n: int)                                // tags 2 and 3
    | Dec(mant: int, exp: int)                   // tag 4
    | Float(width: nat, bits: nat)               // its bytes, 2, 4 or 8 of them, as a number
    | Text(s: seq<byte>)
    | Blob(s: seq<byte>)
    | Arr(items: seq<Item>)
    | Map(pairs: seq<(seq<byte>, Item)>)
    | TimeText(s: seq<byte>)                     // tag 0
    | TimeEpoch(sec: int)                        // tag 1 over an integer
    | TimeFloat(width: nat, bits: nat)           // tag 1 over a float
    | Date(days: int)                            // tag 100
    | Uuid(s: seq<byte>)                         // tag 37
    | BadTag(tag: nat)

  /** The name lists of the structures defined so far, by id. */
  type Table = map<nat, seq<seq<byte>>>

  datatype Read<+T> = Fail | Done(value: T, rest: seq<byte>, table: Table)

  /** How a container ends: after a count of elements, or at a break byte. */
  datatype Length = Count(n: nat) | ToBreak {
    function Less(): Length
      requires this != Count(0)
    {
      if ToBreak? then ToBreak else Count(n - 1)
    }
  }

  // ---- heads ---------------------------------------------------------------------------

  datatype HeadRead = NoHead | Head(major: nat, ai: nat, val: nat, indef: bool, rest: seq<byte>)

  /** The initial byte of an item and its argument. */
  function ReadHead(rest: seq<byte>): (h: HeadRead)
    ensures h.Head? ==> |h.rest| < |rest| && h.major < 8 && h.val < TWO64 && h.ai < 32
    ensures h.Head? ==> h.rest == rest[|rest| - |h.rest|..]
  {
    if rest == [] then NoHead
    else
      var major, ai := rest[0] / 32, rest[0] % 32;
      if ai < 24 then Head(major, ai, ai, false, rest[1..])
      else if ai < 28 then
        var size := if ai == 24 then 1 else if ai == 25 then 2 else if ai == 26 then 4 else 8;
        if |rest| - 1 < size then NoHead
        else
          FromBEBound(rest[1..1 + size]);
          FieldWidths();
          Head(major, ai, FromBE(rest[1..1 + size]), false, rest[1 + size..])
      else if ai == 31 then Head(major, ai, 0, true, rest[1..])
      else NoHead
  }

  // ---- items that hold no other item ----------------------------------------------------

  function ReadSimple(h: HeadRead, table: Table): Read<Item>
    requires h.Head?
  {
    if h.indef then Fail
    else if h.ai == 20 then Done(Bool(false), h.rest, table)
    else if h.ai == 21 then Done(Bool(true), h.rest, table)
    else if h.ai == 22 || h.ai == 23 then Done(Null, h.rest, table)
    else if h.ai == 25 then Done(Float(2, h.val), h.rest, table)
    else if h.ai == 26 then Done(Float(4, h.val), h.rest, table)
    else if h.ai == 27 then Done(Float(8, h.val), h.rest, table)
    else Fail
  }

  /** The chunks of an indefinite-length string of the given major type, joined, up to the break. */
  function ReadChunks(rest: seq<byte>, major: nat, table: Table): (r: Read<seq<byte>>)
    ensures r.Done? ==> |r.rest| < |rest| && r.table == table
    decreases |rest|
  {
    if rest == [] then Fail
    else if rest[0] == BREAK then Done([], rest[1..], table)
    else
      var h := ReadHead(rest);
      if h.NoHead? || h.major != major || h.indef || h.val > |h.rest| then Fail
      else if major == 3 && !ValidUtf8(h.rest[..h.val]) then Fail
      else
        var more := ReadChunks(h.rest[h.val..], major, table);
        if more.Fail? then Fail else Done(h.rest[..h.val] + more.value, more.rest, table)
  }

  function StringOf(major: nat, s: seq<byte>): Item {
    if major == 3 then Text(s) else Blob(s)
  }

  function ReadString(h: HeadRead, table: Table): (r: Read<Item>)
    requires h.Head?
    ensures r.Done? ==> |r.rest| <= |h.rest|
  {
    if h.indef then
      var c := ReadChunks(h.rest, h.major, table);
      if c.Fail? then Fail else Done(StringOf(h.major, c.value), c.rest, table)
    else if h.val > |h.rest| then Fail
    else if h.major == 3 && !ValidUtf8(h.rest[..h.val]) then Fail
    else Done(StringOf(h.major, h.rest[..h.val]), h.rest[h.val..], table)
  }

  // ---- tags ----------------------------------------------------------------------------

  /** The bits of the largest float of each width whose magnitude does not exceed 9e18. */
  function EpochLimit(width: nat): nat {
    if width == 2 then 0x7bff else if width == 4 then 0x5ef9_ccd8 else 0x43df_399b_1438_a100
  }

  function SignBit(width: nat): nat {
    if width == 2 then 0x8000 else if width == 4 then 0x8000_0000 else 0x8000_0000_0000_0000
  }

  /** A float tag 1 accepts: finite and at most 9e18 in magnitude, which the bits of the magnitude order. */
  predicate EpochFloat(width: nat, bits: nat) {
    bits % SignBit(width) <= EpochLimit(width)
  }

  /** The integer an item writes in its digits: an integer or a bignum. */
  predicate HasIntegerText(x: Item) {
    x.Int? || x.Big?
  }

  datatype TagResult = Refused | Means(item: Item)

  /** What a tag makes of its content. `isTime` says which texts are RFC 3339 dates and times. */
  function TagMeaning(tag: nat, x: Item, isTime: seq<byte> -> bool): TagResult {
    if tag == 2 && x.Blob? then Means(Big(FromBE(x.s)))
    else if tag == 3 && x.Blob? then Means(Big(-1 - FromBE(x.s)))
    else if tag == 0 && x.Text? then if isTime(x.s) then Means(TimeText(x.s)) else Refused
    else if tag == 1 && x.Int? && IsInt64(x.n) then Means(TimeEpoch(x.n))
    else if tag == 1 && x.Int? && x.n >= TWO63 then Refused
    else if tag == 1 && x.Float? then
      if EpochFloat(x.width, x.bits) then Means(TimeFloat(x.width, x.bits)) else Refused
    else if tag == 4 && x.Arr? && |x.items| == 2 && x.items[0].Int? && IsInt64(x.items[0].n)
         && HasIntegerText(x.items[1]) then
      Means(Dec(x.items[1].n, x.items[0].n))
    else if tag == 37 && x.Blob? && |x.s| == 16 then Means(Uuid(x.s))
    else if tag == 100 && x.Int? && IsInt64(x.n) then Means(Date(x.n))
    else Means(BadTag(tag))
  }

  predicate IsStructureTag(tag: nat) {
    tag == TAG_STRUCTURE_DEF || STRUCTURE_TAG_BASE <= tag < STRUCTURE_TAG_BASE + MAX_STRUCTURES
  }

  // ---- every item ----------------------------------------------------------------------

  ghost predicate Distinct<T>(s: seq<T>) {
    forall i, j :: 0 <= i < j < |s| ==> s[i] != s[j]
  }

  function Keys(pairs: seq<(seq<byte>, Item)>): (ks: seq<seq<byte>>)
    ensures |ks| == |pairs| && forall i :: 0 <= i < |ks| ==> ks[i] == pairs[i].0
  {
    seq(|pairs|, i requires 0 <= i < |pairs| => pairs[i].0)
  }

  function Zip(names: seq<seq<byte>>, values: seq<Item>): (pairs: seq<(seq<byte>, Item)>)
    requires |names| == |values|
    ensures |pairs| == |names|
    ensures forall i :: 0 <= i < |names| ==> pairs[i] == (names[i], values[i])
  {
    seq(|names|, i requires 0 <= i < |names| => (names[i], values[i]))
  }

  ghost function ReadItem(rest: seq<byte>, depth: nat, table: Table, isTime: seq<byte> -> bool): (r: Read<Item>)
    ensures r.Done? ==> |r.rest| < |rest|
    decreases |rest|, 1
  {
    var h := ReadHead(rest);
    if h.NoHead? then Fail
    else if h.major == 0 then if h.indef then Fail else Done(Int(h.val), h.rest, table)
    else if h.major == 1 then if h.indef then Fail else Done(Int(-1 - h.val), h.rest, table)
    else if h.major <= 3 then ReadString(h, table)
    else if h.major == 7 then ReadSimple(h, table)
    else if depth >= MAX_DEPTH then Fail
    else if h.major == 4 then ReadArray(h, depth, table, isTime)
    else if h.major == 5 then ReadMap(h, depth, table, isTime)
    else if h.indef then Fail
    else if IsStructureTag(h.val) then ReadStructure(h.val, h.rest, depth, table, isTime)
    else
      var c := ReadItem(h.rest, depth + 1, table, isTime);
      if c.Fail? then Fail
      else
        var m := TagMeaning(h.val, c.value, isTime);
        if m.Refused? then Fail else Done(m.item, c.rest, c.table)
  }

  ghost function ReadArray(h: HeadRead, depth: nat, table: Table, isTime: seq<byte> -> bool): (r: Read<Item>)
    requires h.Head?
    ensures r.Done? ==> |r.rest| <= |h.rest|
    decreases |h.rest|, 3
  {
    if !h.indef && h.val > |h.rest| then Fail
    else
      var xs := ReadItems(h.rest, if h.indef then ToBreak else Count(h.val), depth + 1, table, isTime);
      if xs.Fail? then Fail else Done(Arr(xs.value), xs.rest, xs.table)
  }

  ghost function ReadMap(h: HeadRead, depth: nat, table: Table, isTime: seq<byte> -> bool): (r: Read<Item>)
    requires h.Head?
    ensures r.Done? ==> |r.rest| <= |h.rest|
    decreases |h.rest|, 3
  {
    if !h.indef && h.val > |h.rest| / 2 then Fail
    else
      var ps := ReadPairs(h.rest, if h.indef then ToBreak else Count(h.val), depth + 1, table, isTime);
      if ps.Fail? || !Distinct(Keys(ps.value)) then Fail else Done(Map(ps.value), ps.rest, ps.table)
  }

  ghost function ReadItems(rest: seq<byte>, len: Length, depth: nat, table: Table,
                           isTime: seq<byte> -> bool): (r: Read<seq<Item>>)
    ensures r.Done? ==> |r.rest| <= |rest|
    ensures r.Done? && len.Count? ==> |r.value| == len.n
    decreases |rest|, 2
  {
    if len == Count(0) then Done([], rest, table)
    else if len.ToBreak? && rest == [] then Fail
    else if len.ToBreak? && rest[0] == BREAK then Done([], rest[1..], table)
    else
      var x := ReadItem(rest, depth, table, isTime);
      if x.Fail? then Fail
      else
        var xs := ReadItems(x.rest, len.Less(), depth, x.table, isTime);
        if xs.Fail? then Fail else Done([x.value] + xs.value, xs.rest, xs.table)
  }

  ghost function ReadPairs(rest: seq<byte>, len: Length, depth: nat, table: Table,
                           isTime: seq<byte> -> bool): (r: Read<seq<(seq<byte>, Item)>>)
    ensures r.Done? ==> |r.rest| <= |rest|
    ensures r.Done? && len.Count? ==> |r.value| == len.n
    decreases |rest|, 2
  {
    if len == Count(0) then Done([], rest, table)
    else if len.ToBreak? && rest == [] then Fail
    else if len.ToBreak? && rest[0] == BREAK then Done([], rest[1..], table)
    else
      var k := ReadItem(rest, depth, table, isTime);
      if k.Fail? || !k.value.Text? then Fail
      else
        var v := ReadItem(k.rest, depth, k.table, isTime);
        if v.Fail? then Fail
        else
          var ps := ReadPairs(v.rest, len.Less(), depth, v.table, isTime);
          if ps.Fail? then Fail else Done([(k.value.s, v.value)] + ps.value, ps.rest, ps.table)
  }

  /** A structure's definition or reference, after its tag: the map of its names and values. */
  ghost function ReadStructure(tag: nat, rest: seq<byte>, depth: nat, table: Table,
                               isTime: seq<byte> -> bool): (r: Read<Item>)
    requires IsStructureTag(tag)
    ensures r.Done? ==> |r.rest| <= |rest|
    decreases |rest|, 4
  {
    var h := ReadHead(rest);
    if depth + 1 >= MAX_DEPTH || h.NoHead? || h.major != 4 || h.indef || h.val > |h.rest| then Fail
    else if tag == TAG_STRUCTURE_DEF then
      var d := ReadDefinition(h, depth, table, isTime);
      if d.Fail? then Fail else ReadRecord(d.value, d.rest, depth, d.table, isTime)
    else
      var id := tag - STRUCTURE_TAG_BASE;
      if id !in table || |table[id]| != h.val then Fail
      else ReadRecord(table[id], h.rest, depth, table, isTime)
  }

  /** The id and the names of a definition, which the table then holds. */
  ghost function ReadDefinition(h: HeadRead, depth: nat, table: Table,
                                isTime: seq<byte> -> bool): (r: Read<seq<seq<byte>>>)
    requires h.Head?
    ensures r.Done? ==> |r.rest| <= |h.rest|
    decreases |h.rest|, 2
  {
    if h.val < 2 then Fail
    else
      var id := ReadItem(h.rest, depth + 2, table, isTime);
      if id.Fail? || !id.value.Int? || !(STRUCTURE_TAG_BASE <= id.value.n < STRUCTURE_TAG_BASE + MAX_STRUCTURES)
         then Fail
      else
        var nh := ReadHead(id.rest);
        if nh.NoHead? || nh.major != 4 || nh.indef || nh.val > |nh.rest| then Fail
        else
          var names := ReadNames(nh.rest, nh.val, depth + 3, id.table, isTime);
          if names.Fail? || !Distinct(names.value) || h.val != nh.val + 2 then Fail
          else Done(names.value, names.rest, names.table[id.value.n - STRUCTURE_TAG_BASE := names.value])
  }

  ghost function ReadNames(rest: seq<byte>, n: nat, depth: nat, table: Table,
                           isTime: seq<byte> -> bool): (r: Read<seq<seq<byte>>>)
    ensures r.Done? ==> |r.rest| <= |rest| && |r.value| == n
    decreases |rest|, 2
  {
    if n == 0 then Done([], rest, table)
    else
      var k := ReadItem(rest, depth, table, isTime);
      if k.Fail? || !k.value.Text? then Fail
      else
        var ks := ReadNames(k.rest, n - 1, depth, k.table, isTime);
        if ks.Fail? then Fail else Done([k.value.s] + ks.value, ks.rest, ks.table)
  }

  ghost function ReadRecord(names: seq<seq<byte>>, rest: seq<byte>, depth: nat, table: Table,
                            isTime: seq<byte> -> bool): (r: Read<Item>)
    ensures r.Done? ==> |r.rest| <= |rest|
    decreases |rest|, 3
  {
    var vs := ReadItems(rest, Count(|names|), depth + 2, table, isTime);
    if vs.Fail? then Fail else Done(Map(Zip(names, vs.value)), vs.rest, vs.table)
  }

  /** NewCBORNode: one item, which must be all of the data. */
  ghost function ReadDocument(data: seq<byte>, isTime: seq<byte> -> bool): Read<Item> {
    var r := ReadItem(data, 0, map[], isTime);
    if r.Done? && r.rest == [] then r else Fail
  }
}
