/**
 The binary format of PostgreSQL's arrays (array_recv and array_send in the PostgreSQL sources), byte by byte: what the
 encoder of query/write_encode_complex.go writes is in it, and query/result_cbor.go reads all of it, whatever the flag,
 the element type and the lower bounds.
 */
module ArrayFormat {
  import opened Wrappers
  import opened Bytes
  import opened CborEncode
  import opened Arrays

  /** A 32-bit word, high byte first; a negative one as its two's complement. */
  function Word(n: int): seq<byte>
    requires -0x8000_0000 <= n < 0x1_0000_0000
  {
    var u := if n < 0 then n + 0x1_0000_0000 else n;
    [u / 0x100_0000, u / 0x1_0000 % 0x100, u / 0x100 % 0x100, u % 0x100]
  }

  /** An element: its length and bytes, or the length -1. */
  function ElementBytes(e: Option<seq<byte>>): seq<byte>
    requires e.Some? ==> |e.value| <= 0x7fff_ffff
  {
    if e == None then [0xff, 0xff, 0xff, 0xff] else Word(|e.value|) + e.value
  }

  predicate Sized(es: seq<Option<seq<byte>>>) {
    forall i :: 0 <= i < |es| && es[i].Some? ==> |es[i].value| <= 0x7fff_ffff
  }

  function ElementsBytes(es: seq<Option<seq<byte>>>): seq<byte>
    requires Sized(es)
  {
    if es == [] then [] else ElementBytes(es[0]) + ElementsBytes(es[1..])
  }

  predicate Within(dims: seq<nat>, bounds: seq<int>) {
    && |dims| == |bounds|
    && forall i :: 0 <= i < |dims| ==> dims[i] <= 0x7fff_ffff && -0x8000_0000 <= bounds[i] <= 0x7fff_ffff
  }

  /** Each dimension: its size and its lower bound. */
  function DimensionBytes(dims: seq<nat>, bounds: seq<int>): seq<byte>
    requires Within(dims, bounds)
  {
    if dims == [] then [] else Word(dims[0]) + (Word(bounds[0]) + DimensionBytes(dims[1..], bounds[1..]))
  }

  /** A whole array: dimension count, null flag, element type, dimensions, elements. */
  function Sent(flag: int, oid: nat, dims: seq<nat>, bounds: seq<int>, es: seq<Option<seq<byte>>>): seq<byte>
    requires -0x8000_0000 <= flag <= 0x7fff_ffff && oid < 0x1_0000_0000 && |dims| <= 0x7fff_ffff
    requires Within(dims, bounds) && Sized(es)
  {
    Word(|dims|) + (Word(flag) + (Word(oid) + (DimensionBytes(dims, bounds) + ElementsBytes(es))))
  }

  // ---- what the encoder writes ------------------------------------------------------------------------------------

  lemma Quarters(u: nat)
    ensures u / 0x1_0000 == u / 256 / 256 && u / 0x100_0000 == u / 256 / 256 / 256
  {
  }

  lemma WordIs(n: int)
    requires -0x8000_0000 <= n < 0x1_0000_0000
    ensures Int32(n) == Word(n)
  {
    var u := if n < 0 then n + 0x1_0000_0000 else n;
    assert n % TWO32 == u;
    FourWritten(u);
  }

  lemma FourWritten(u: nat)
    requires u < 0x1_0000_0000
    ensures ToBE(u, 4) == [u / 0x100_0000, u / 0x1_0000 % 0x100, u / 0x100 % 0x100, u % 0x100]
  {
    var a, b, c := u / 256, u / 256 / 256, u / 256 / 256 / 256;
    Quarters(u);
    assert ToBE(c, 1) == [c % 256];
    assert ToBE(b, 2) == [c % 256, b % 256];
    assert ToBE(a, 3) == [c % 256, b % 256, a % 256];
    assert ToBE(u, 4) == [c % 256, b % 256, a % 256, u % 256];
  }

  /** The encoded form of each leaf; none for NULL. */
  function Encoded(leaves: seq<Nested>, enc: Nested -> Option<seq<byte>>): (es: seq<Option<seq<byte>>>)
    ensures |es| == |leaves|
    ensures forall i :: 0 <= i < |es| ==> es[i] == if leaves[i] == Null then None else enc(leaves[i])
  {
    seq(|leaves|, i requires 0 <= i < |leaves| => if leaves[i] == Null then None else enc(leaves[i]))
  }

  /** The encoder takes every leaf, in a length 32 bits can say. */
  ghost predicate Encodes(leaves: seq<Nested>, enc: Nested -> Option<seq<byte>>) {
    forall i :: 0 <= i < |leaves| && leaves[i] != Null ==>
      enc(leaves[i]).Some? && |enc(leaves[i]).value| <= 0x7fff_ffff
  }

  lemma {:induction false} LeavesAre(leaves: seq<Nested>, enc: Nested -> Option<seq<byte>>)
    requires Encodes(leaves, enc)
    ensures Sized(Encoded(leaves, enc))
    ensures LeavesBytes(leaves, enc) == Some(ElementsBytes(Encoded(leaves, enc)))
  {
    hide Int32, Word;
    if leaves != [] {
      LeavesAre(leaves[1..], enc);
      assert Encoded(leaves, enc)[1..] == Encoded(leaves[1..], enc);
      WordIs(-1);
      assert Word(-1) == [0xff, 0xff, 0xff, 0xff] by { MinusOne(); }
      if leaves[0] != Null {
        WordIs(|enc(leaves[0]).value|);
      }
    }
  }

  lemma MinusOne()
    ensures Word(-1) == [0xff, 0xff, 0xff, 0xff]
  {
  }

  function Ones(count: nat): (s: seq<int>)
    ensures |s| == count && forall i :: 0 <= i < count ==> s[i] == 1
  {
    seq(count, _ => 1)
  }

  lemma {:induction false} DimsAre(dims: seq<nat>)
    requires forall i :: 0 <= i < |dims| ==> dims[i] <= 0x7fff_ffff
    ensures DimBytes(dims) == DimensionBytes(dims, Ones(|dims|))
  {
    hide Int32, Word;
    if dims != [] {
      DimsAre(dims[1..]);
      assert Ones(|dims|)[1..] == Ones(|dims| - 1);
      WordIs(dims[0]);
      WordIs(1);
    }
  }

  /** A rectangular array is written in the format, its flag set exactly when it holds a NULL, its bounds from one. */
  lemma WrittenIs(n: Nested, dims: seq<nat>, oid: nat, enc: Nested -> Option<seq<byte>>)
    requires Uniform(n, dims) && Positive(dims) && dims != [] && |dims| <= 0x7fff_ffff && oid < 0x1_0000_0000
    requires (forall i :: 0 <= i < |dims| ==> dims[i] <= 0x7fff_ffff) && Encodes(Flat(n), enc)
    ensures Sized(Encoded(Flat(n), enc))
    ensures Wire(ArrayShape(n), oid, enc)
            == Some(Sent(if exists i :: 0 <= i < |Flat(n)| && Flat(n)[i] == Null then 1 else 0, oid, dims,
                         Ones(|dims|), Encoded(Flat(n), enc)))
  {
    hide ArrayShape, Uniform, Flat, Int32, Word, DimBytes, DimensionBytes, LeavesBytes, ElementsBytes;
    UniformShape(n, dims);
    LeavesAre(Flat(n), enc);
    DimsAre(dims);
    WordIs(|dims|);
    WordIs(0);
    WordIs(1);
    WordIs(oid);
  }

  /** An array that holds no element is written without dimensions. */
  lemma EmptyWrittenIs(n: Nested, oid: nat, enc: Nested -> Option<seq<byte>>)
    requires Hollow(n) && oid < 0x1_0000_0000
    ensures Wire(ArrayShape(n), oid, enc) == Some(Sent(0, oid, [], [], []))
  {
    hide ArrayShape, Hollow, Int32, Word;
    HollowShape(n);
    WordIs(0);
    WordIs(oid);
  }

  // ---- what the reader takes --------------------------------------------------------------------------------------

  lemma {:induction false} BoundsSkipped(dims: seq<nat>, bounds: seq<int>, total: nat, rest: seq<byte>)
    requires Within(dims, bounds) && Positive(dims) && total > 0 && total * Product(dims) <= 0x7fff_ffff
    ensures |DimensionBytes(dims, bounds)| == 8 * |dims|
    ensures ReadDims(DimensionBytes(dims, bounds) + rest, |dims|, total) == Some(dims)
    decreases |dims|
  {
    hide Int32, ReadInt32, Word;
    if dims != [] {
      var size, more := dims[0], DimensionBytes(dims[1..], bounds[1..]) + rest;
      var d := DimensionBytes(dims, bounds) + rest;
      assert d == Word(size) + (Word(bounds[0]) + more);
      assert size > 0;
      ProductPositive(dims[1..]);
      SizeFits(total, size, Product(dims[1..]));
      WordIs(size);
      WordIs(bounds[0]);
      Int32Back(size, Word(bounds[0]) + more);
      assert |Word(bounds[0])| == 4 && d[8..] == more;
      BoundsSkipped(dims[1..], bounds[1..], total * size, rest);
      assert dims == [size] + dims[1..];
    }
  }

  /**
   An array of the format, of any flag, element type and bounds and whatever follows it, is read as its nesting up to
   six dimensions and refused beyond.
   */
  lemma SentRead(flag: int, oid: nat, n: Nested, dims: seq<nat>, bounds: seq<int>, enc: Nested -> Option<seq<byte>>,
                 val: seq<byte> -> Option<seq<byte>>, suffix: seq<byte>)
    requires -0x8000_0000 <= flag <= 0x7fff_ffff && oid < 0x1_0000_0000 && 0 < |dims| <= 0x7fff_ffff
    requires Within(dims, bounds) && Positive(dims) && Uniform(n, dims) && Product(dims) <= 0x7fff_ffff
    requires Carried(Flat(n), enc, val) && Encodes(Flat(n), enc)
    ensures Sized(Encoded(Flat(n), enc))
    ensures ReadArray(Sent(flag, oid, dims, bounds, Encoded(Flat(n), enc)) + suffix, val)
            == if |dims| <= 6 then Some(CborOf(n, enc, val)) else None
  {
    hide Int32, ReadInt32, Word, ReadLevel, CborOf, LeavesBytes, ReadDims, DimensionBytes, ElementsBytes, Uniform, Flat,
         HeadBytes, Product, Encoded;
    LeavesAre(Flat(n), enc);
    UniformScalars(n, dims);
    LeavesWritten(Flat(n), enc, val);
    ProductCounts(n, dims);
    var leaves := LeavesBytes(Flat(n), enc).value;
    var body := DimensionBytes(dims, bounds) + (leaves + suffix);
    Followed(Word(|dims|), Word(flag), Word(oid), DimensionBytes(dims, bounds), leaves, suffix);
    WordIs(|dims|);
    WordIs(flag);
    WordIs(oid);
    Header(dims, flag, oid, body);
    if |dims| <= 6 {
      BoundsSkipped(dims, bounds, 1, leaves + suffix);
      assert body[8 * |dims|..] == leaves + suffix;
      LevelBack(n, dims, suffix, enc, val);
    } else {
      BoundsLong(dims, bounds);
    }
  }

  lemma Followed(a: seq<byte>, b: seq<byte>, c: seq<byte>, d: seq<byte>, e: seq<byte>, suffix: seq<byte>)
    ensures a + (b + (c + (d + e))) + suffix == a + (b + (c + (d + (e + suffix))))
  {
  }

  lemma {:induction false} BoundsLong(dims: seq<nat>, bounds: seq<int>)
    requires Within(dims, bounds)
    ensures |DimensionBytes(dims, bounds)| == 8 * |dims|
  {
    if dims != [] {
      BoundsLong(dims[1..], bounds[1..]);
    }
  }

  // ---- and it takes nothing else ----------------------------------------------------------------------------------

  /** What stands for an array on the wire: an element with its length, negative for NULL, or a level of the nesting. */
  datatype Tree = Leaf(length: int, bytes: seq<byte>) | Level(items: seq<Tree>)

  /** A tree of these sizes whose elements have values. */
  ghost predicate TreeOk(t: Tree, sizes: seq<nat>, val: seq<byte> -> Option<seq<byte>>)
    decreases t, 0
  {
    match t
    case Leaf(length, bytes) =>
      && sizes == [] && -0x8000_0000 <= length <= 0x7fff_ffff
      && if length < 0 then bytes == [] else |bytes| == length && val(bytes).Some?
    case Level(items) => sizes != [] && |items| == sizes[0] && TreesOk(items, sizes[1..], val)
  }

  ghost predicate TreesOk(items: seq<Tree>, sizes: seq<nat>, val: seq<byte> -> Option<seq<byte>>)
    decreases items, 1
  {
    items == [] || (TreeOk(items[0], sizes, val) && TreesOk(items[1..], sizes, val))
  }

  ghost function TreeBytes(t: Tree, sizes: seq<nat>, val: seq<byte> -> Option<seq<byte>>): seq<byte>
    requires TreeOk(t, sizes, val)
    decreases t, 0
  {
    match t
    case Leaf(length, bytes) => Word(length) + bytes
    case Level(items) => TreesBytes(items, sizes[1..], val)
  }

  ghost function TreesBytes(items: seq<Tree>, sizes: seq<nat>, val: seq<byte> -> Option<seq<byte>>): seq<byte>
    requires TreesOk(items, sizes, val)
    decreases items, 1
  {
    if items == [] then [] else TreeBytes(items[0], sizes, val) + TreesBytes(items[1..], sizes, val)
  }

  /** The nesting as CBOR: null for NULL, each element's value, each level an array. */
  ghost function TreeCbor(t: Tree, sizes: seq<nat>, val: seq<byte> -> Option<seq<byte>>): seq<byte>
    requires TreeOk(t, sizes, val)
    decreases t, 0
  {
    match t
    case Leaf(length, bytes) => if length < 0 then [0xf6] else val(bytes).value
    case Level(items) => HeadBytes(4, |items| % TWO64) + TreesCbor(items, sizes[1..], val)
  }

  ghost function TreesCbor(items: seq<Tree>, sizes: seq<nat>, val: seq<byte> -> Option<seq<byte>>): seq<byte>
    requires TreesOk(items, sizes, val)
    decreases items, 1
  {
    if items == [] then [] else TreeCbor(items[0], sizes, val) + TreesCbor(items[1..], sizes, val)
  }

  lemma WordBack(d: seq<byte>)
    requires |d| >= 4
    ensures -0x8000_0000 <= ReadInt32(d) <= 0x7fff_ffff && Word(ReadInt32(d)) == d[..4]
  {
    var w := d[..4];
    assert w[..3][..2][..1] == [w[0]] && w[..3][..2] == [w[0], w[1]] && w[..3] == [w[0], w[1], w[2]];
    assert w[..1] == [w[0]] && w[..1][..0] == [];
    var a: int, b: int, c: int, e: int := w[0], w[1], w[2], w[3];
    assert FromBE(w[..3][..2][..1]) == a;
    assert FromBE(w[..3][..2]) == a * 256 + b;
    assert FromBE(w[..3]) == (a * 256 + b) * 256 + c;
    assert FromBE(w) == ((a * 256 + b) * 256 + c) * 256 + e;
    FourBytes(w[0], w[1], w[2], w[3]);
  }

  lemma FourBytes(a: byte, b: byte, c: byte, d: byte)
    ensures var u := ((a * 256 + b) * 256 + c) * 256 + d;
            0 <= u < 0x1_0000_0000 && u / 0x100_0000 == a && u / 0x1_0000 % 0x100 == b && u / 0x100 % 0x100 == c
            && u % 0x100 == d
  {
    Cut(a, b);
    Cut(a * 256 + b, c);
    Cut((a * 256 + b) * 256 + c, d);
    Quarters(((a * 256 + b) * 256 + c) * 256 + d);
  }

  lemma Cut(x: nat, b: byte)
    ensures (x * 256 + b) / 256 == x && (x * 256 + b) % 256 == b
  {
  }

  lemma LeafSound(d: seq<byte>, val: seq<byte> -> Option<seq<byte>>) returns (t: Tree)
    requires ReadLeaf(d, val).Got?
    ensures TreeOk(t, [], val) && d == TreeBytes(t, [], val) + ReadLeaf(d, val).rest
    ensures ReadLeaf(d, val).value == TreeCbor(t, [], val)
  {
    hide ReadInt32, Word;
    WordBack(d);
    var size := ReadInt32(d);
    t := Leaf(size, if size < 0 then [] else d[4..][..size]);
  }

  lemma {:induction false} LevelSound(sizes: seq<nat>, d: seq<byte>, val: seq<byte> -> Option<seq<byte>>)
    returns (t: Tree)
    requires sizes != [] && ReadLevel(sizes, d, val).Got?
    ensures TreeOk(t, sizes, val) && d == TreeBytes(t, sizes, val) + ReadLevel(sizes, d, val).rest
    ensures ReadLevel(sizes, d, val).value == TreeCbor(t, sizes, val)
    decreases |sizes|, 0, 0
  {
    hide HeadBytes, ReadMany;
    var items := ManySound(sizes, sizes[0], d, val);
    t := Level(items);
  }

  lemma {:induction false} ManySound(sizes: seq<nat>, count: nat, d: seq<byte>, val: seq<byte> -> Option<seq<byte>>)
    returns (items: seq<Tree>)
    requires sizes != [] && ReadMany(sizes, count, d, val).Got?
    ensures |items| == count && TreesOk(items, sizes[1..], val)
    ensures d == TreesBytes(items, sizes[1..], val) + ReadMany(sizes, count, d, val).rest
    ensures ReadMany(sizes, count, d, val).value == TreesCbor(items, sizes[1..], val)
    decreases |sizes| - 1, 2, count
  {
    hide ReadLeaf, ReadLevel, TreeOk, TreeBytes, TreeCbor;
    items := [];
    if count > 0 {
      var first := First(sizes, d, val);
      var t: Tree;
      if |sizes| == 1 {
        assert sizes[1..] == [];
        t := LeafSound(d, val);
      } else {
        t := LevelSound(sizes[1..], d, val);
      }
      var more := ManySound(sizes, count - 1, first.rest, val);
      items := [t] + more;
    }
  }

  lemma {:induction false} DimsSound(d: seq<byte>, ndim: nat, total: nat) returns (bounds: seq<int>)
    requires |d| >= 8 * ndim && ReadDims(d, ndim, total).Some? && total <= 0x7fff_ffff
    ensures var dims := ReadDims(d, ndim, total).value;
            |dims| == ndim && Within(dims, bounds) && d[..8 * ndim] == DimensionBytes(dims, bounds)
            && total * Product(dims) <= 0x7fff_ffff
    decreases ndim
  {
    hide ReadInt32, Word;
    bounds := [];
    if ndim > 0 {
      WordBack(d);
      WordBack(d[4..]);
      var size := ReadInt32(d);
      Fits(total, size);
      var rest := ReadDims(d[8..], ndim - 1, total * size).value;
      var more := DimsSound(d[8..], ndim - 1, total * size);
      bounds := [ReadInt32(d[4..])] + more;
      assert total * size * Product(rest) == total * (size * Product(rest));
      assert d[..8 * ndim] == d[..4] + (d[4..][..4] + d[8..][..8 * (ndim - 1)]);
    }
  }

  lemma Fits(total: nat, size: int)
    requires size >= 0 && (size == 0 || total <= 0x7fff_ffff / size) && total <= 0x7fff_ffff
    ensures 0 <= total * size <= 0x7fff_ffff
  {
  }

  /** Whatever is read is an array of the format, of one to six dimensions and 2^31 - 1 elements, or an empty one. */
  lemma ReadSound(d: seq<byte>, val: seq<byte> -> Option<seq<byte>>)
    returns (dims: seq<nat>, bounds: seq<int>, t: Tree, suffix: seq<byte>)
    requires ReadArray(d, val).Some?
    ensures |dims| <= 6 && Within(dims, bounds) && |d| >= 12 && d[..4] == Word(|dims|)
    ensures dims == [] ==> ReadArray(d, val).value == HeadBytes(4, 0)
    ensures dims != [] ==>
              && Product(dims) <= 0x7fff_ffff && TreeOk(t, dims, val)
              && d[12..] == DimensionBytes(dims, bounds) + (TreeBytes(t, dims, val) + suffix)
              && ReadArray(d, val).value == TreeCbor(t, dims, val)
  {
    hide ReadInt32, Word, ReadLevel, ReadDims, DimensionBytes, TreeOk, TreeBytes, TreeCbor, HeadBytes, Product;
    WordBack(d);
    dims, bounds, t, suffix := [], [], Level([]), [];
    var ndim, body := ReadInt32(d), d[12..];
    if ndim > 0 {
      dims := ReadDims(body, ndim, 1).value;
      bounds := DimsSound(body, ndim, 1);
      t := LevelSound(dims, body[8 * ndim..], val);
      suffix := ReadLevel(dims, body[8 * ndim..], val).rest;
      assert body == body[..8 * ndim] + body[8 * ndim..];
    }
  }
}
