/**
 Multi-dimensional arrays in PostgreSQL's binary form: written from nested values (query/write_encode_complex.go),
 read back as nested CBOR arrays (query/result_cbor.go).
 */
module Arrays {
  import opened Wrappers
  import opened Bytes
  import opened CborEncode

  datatype Nested = Null | Scalar(v: int) | Arr(items: seq<Nested>)

  const MAX_INT32: nat := 0x7fff_ffff
  const TWO32: nat := 0x1_0000_0000
  const MAX_DIMS: nat := 6

  // ---- the shape -----------------------------------------------------------------------------------------

  datatype Shape = Refused | Shape(sizes: seq<nat>, leaves: seq<Nested>)

  /** arrayShape: the sizes of the dimensions and the leaves; no dimension at all for an empty array. */
  function ArrayShape(n: Nested): Shape
    decreases n, 0
  {
    if !n.Arr? then Refused
    else if n.items == [] then Shape([], [])
    else if !n.items[0].Arr? then Shape([|n.items|], n.items)
    else
      var first := ArrayShape(n.items[0]);
      if first.Refused? then Refused
      else
        var all := SameShapes(n.items, first.sizes);
        if all.Refused? then Refused
        else if all.leaves == [] then Shape([], [])
        else Shape([|n.items|] + first.sizes, all.leaves)
  }

  /** Sub-arrays all of the given sizes, and their leaves in order. */
  function SameShapes(items: seq<Nested>, inner: seq<nat>): Shape
    decreases items, 1
  {
    if items == [] then Shape(inner, [])
    else
      var s := ArrayShape(items[0]);
      var rest := SameShapes(items[1..], inner);
      if s.Refused? || s.sizes != inner || rest.Refused? then Refused else Shape(inner, s.leaves + rest.leaves)
  }

  method ComputeShape(n: Nested) returns (s: Shape)
    ensures s == ArrayShape(n)
    decreases n
  {
    if !n.Arr? {
      return Refused;
    }
    var items := n.items;
    if |items| == 0 {
      return Shape([], []);
    }
    if !items[0].Arr? {
      return Shape([|items|], items);
    }
    var inner: seq<nat> := [];
    var leaves: seq<Nested> := [];
    ghost var first := ArrayShape(items[0]);
    assert items[0..] == items;
    for i := 0 to |items|
      invariant i > 0 ==> first.Shape? && inner == first.sizes
      invariant first.Shape? ==> SameShapes(items, first.sizes) == Prepend(leaves, SameShapes(items[i..], first.sizes))
    {
      assert items[i..][0] == items[i] && items[i..][1..] == items[i + 1..];
      var s := ComputeShape(items[i]);
      if s.Refused? {
        return Refused;
      }
      if i == 0 {
        inner := s.sizes;
      } else if s.sizes != inner {
        return Refused;
      }
      PrependTwice(leaves, s.leaves, SameShapes(items[i + 1..], first.sizes));
      leaves := leaves + s.leaves;
    }
    assert leaves + [] == leaves;
    if |leaves| == 0 {
      return Shape([], []);
    }
    return Shape([|items|] + inner, leaves);
  }

  function Prepend(leaves: seq<Nested>, s: Shape): Shape {
    if s.Refused? then Refused else Shape(s.sizes, leaves + s.leaves)
  }

  lemma PrependTwice(a: seq<Nested>, b: seq<Nested>, s: Shape)
    ensures Prepend(a, Prepend(b, s)) == Prepend(a + b, s)
  {
    if s.Shape? {
      assert a + (b + s.leaves) == a + b + s.leaves;
    }
  }

  // ---- what rectangular means --------------------------------------------------------------------------------

  /** Every level has the size of its dimension, and the values below the last are no arrays. */
  ghost predicate Uniform(n: Nested, dims: seq<nat>)
    decreases |dims|
  {
    if dims == [] then !n.Arr?
    else n.Arr? && |n.items| == dims[0] && forall i :: 0 <= i < |n.items| ==> Uniform(n.items[i], dims[1..])
  }

  /** Arrays in arrays and nothing in them. */
  ghost predicate Hollow(n: Nested)
    decreases n
  {
    n.Arr? && forall i :: 0 <= i < |n.items| ==> Hollow(n.items[i])
  }

  ghost predicate Positive(dims: seq<nat>) {
    forall i :: 0 <= i < |dims| ==> dims[i] > 0
  }

  ghost predicate AllScalar(leaves: seq<Nested>) {
    forall i :: 0 <= i < |leaves| ==> !leaves[i].Arr?
  }

  function Product(dims: seq<nat>): nat {
    if dims == [] then 1 else dims[0] * Product(dims[1..])
  }

  /** The values in row-major order. */
  function Flat(n: Nested): seq<Nested>
    decreases n, 0
  {
    if n.Arr? then FlatAll(n.items) else [n]
  }

  function FlatAll(items: seq<Nested>): seq<Nested>
    decreases items, 1
  {
    if items == [] then [] else Flat(items[0]) + FlatAll(items[1..])
  }

  /** A rectangular array has exactly its dimensions and its values. */
  lemma {:induction false} UniformShape(n: Nested, dims: seq<nat>)
    requires dims != [] && Positive(dims) && Uniform(n, dims)
    ensures ArrayShape(n) == Shape(dims, Flat(n)) && Flat(n) != []
    decreases n, 0
  {
    var inner := dims[1..];
    assert n.items[0] in n.items && Uniform(n.items[0], inner);
    if inner == [] {
      ScalarsFlat(n.items);
      assert dims == [|n.items|];
    } else {
      UniformShape(n.items[0], inner);
      UniformShapes(n.items, inner);
      assert dims == [dims[0]] + inner;
    }
  }

  lemma {:induction false} UniformShapes(items: seq<Nested>, inner: seq<nat>)
    requires inner != [] && Positive(inner) && forall i :: 0 <= i < |items| ==> Uniform(items[i], inner)
    ensures SameShapes(items, inner) == Shape(inner, FlatAll(items)) && (items != [] ==> FlatAll(items) != [])
    decreases items, 1
  {
    if items != [] {
      UniformShape(items[0], inner);
      UniformShapes(items[1..], inner);
    }
  }

  lemma {:induction false} ScalarsFlat(items: seq<Nested>)
    requires AllScalar(items)
    ensures FlatAll(items) == items
  {
    if items != [] {
      ScalarsFlat(items[1..]);
      assert items == [items[0]] + items[1..];
    }
  }

  lemma {:induction false} HollowShape(n: Nested)
    requires Hollow(n)
    ensures ArrayShape(n) == Shape([], [])
    decreases n, 0
  {
    if n.items != [] {
      assert Hollow(n.items[0]);
      HollowShape(n.items[0]);
      HollowShapes(n.items);
    }
  }

  lemma {:induction false} HollowShapes(items: seq<Nested>)
    requires forall i :: 0 <= i < |items| ==> Hollow(items[i])
    ensures SameShapes(items, []) == Shape([], [])
    decreases items, 1
  {
    if items != [] {
      HollowShape(items[0]);
      HollowShapes(items[1..]);
    }
  }

  /** What the sizes and leaves found say of the array. */
  lemma {:induction false} ShapeSound(n: Nested)
    requires ArrayShape(n).Shape? && AllScalar(ArrayShape(n).leaves)
    ensures var s := ArrayShape(n);
            if s.sizes == [] then Hollow(n) && s.leaves == []
            else Positive(s.sizes) && Uniform(n, s.sizes) && s.leaves == Flat(n) && s.leaves != []
    decreases n, 0
  {
    var s := ArrayShape(n);
    if n.items != [] {
      if !n.items[0].Arr? {
        ScalarsFlat(n.items);
        assert s.sizes[1..] == [];
      } else {
        var first := ArrayShape(n.items[0]);
        ShapesSound(n.items, first.sizes);
        if s.sizes != [] {
          assert s.sizes[1..] == first.sizes;
        }
      }
    }
  }

  lemma {:induction false} ShapesSound(items: seq<Nested>, inner: seq<nat>)
    requires SameShapes(items, inner).Shape? && AllScalar(SameShapes(items, inner).leaves)
    ensures var leaves := SameShapes(items, inner).leaves;
            if inner == [] then leaves == [] && forall i :: 0 <= i < |items| ==> Hollow(items[i])
            else leaves == FlatAll(items) && (items != [] ==> Positive(inner) && leaves != []) && forall i ::
                   0 <= i < |items| ==> Uniform(items[i], inner)
    decreases items, 1
  {
    if items != [] {
      var s, rest := ArrayShape(items[0]), SameShapes(items[1..], inner);
      assert forall i :: 0 <= i < |s.leaves| ==> s.leaves[i] == (s.leaves + rest.leaves)[i];
      assert forall i :: 0 <= i < |rest.leaves| ==> rest.leaves[i] == (s.leaves + rest.leaves)[|s.leaves| + i];
      ShapeSound(items[0]);
      ShapesSound(items[1..], inner);
      forall i | 0 <= i < |items| ensures inner == [] ==> Hollow(items[i])
                                  ensures inner != [] ==> Uniform(items[i], inner) {
        if i > 0 {
          assert items[1..][i - 1] == items[i];
        }
      }
    }
  }

  /** An array of scalars has a shape exactly when it is rectangular, or holds nothing. */
  lemma ShapeIff(n: Nested)
    ensures ArrayShape(n).Shape? && AllScalar(ArrayShape(n).leaves)
            <==> Hollow(n) || exists dims :: dims != [] && Positive(dims) && Uniform(n, dims)
  {
    hide ArrayShape, Hollow, Uniform;
    if ArrayShape(n).Shape? && AllScalar(ArrayShape(n).leaves) {
      ShapeSound(n);
    }
    if Hollow(n) {
      HollowShape(n);
    } else if exists dims :: dims != [] && Positive(dims) && Uniform(n, dims) {
      var dims :| dims != [] && Positive(dims) && Uniform(n, dims);
      UniformShape(n, dims);
      UniformScalars(n, dims);
    }
  }

  lemma {:induction false} UniformScalars(n: Nested, dims: seq<nat>)
    requires Uniform(n, dims)
    ensures AllScalar(Flat(n))
    decreases n, 0
  {
    if n.Arr? {
      UniformAllScalars(n.items, dims[1..]);
    }
  }

  lemma {:induction false} UniformAllScalars(items: seq<Nested>, dims: seq<nat>)
    requires forall i :: 0 <= i < |items| ==> Uniform(items[i], dims)
    ensures AllScalar(FlatAll(items))
    decreases items, 1
  {
    if items != [] {
      UniformScalars(items[0], dims);
      UniformAllScalars(items[1..], dims);
    }
  }

  /** The product of the sizes is the number of values. */
  lemma {:induction false} ProductCounts(n: Nested, dims: seq<nat>)
    requires Uniform(n, dims)
    ensures |Flat(n)| == Product(dims)
    decreases n, 0
  {
    if n.Arr? {
      ProductCountsAll(n.items, dims[1..]);
    }
  }

  lemma {:induction false} ProductCountsAll(items: seq<Nested>, dims: seq<nat>)
    requires forall i :: 0 <= i < |items| ==> Uniform(items[i], dims)
    ensures |FlatAll(items)| == |items| * Product(dims)
    decreases items, 1
  {
    if items != [] {
      ProductCounts(items[0], dims);
      ProductCountsAll(items[1..], dims);
      Distribute(|items[1..]|, Product(dims));
    }
  }

  lemma Distribute(k: nat, p: nat)
    ensures p + k * p == (k + 1) * p
  {
  }

  // ---- the wire -----------------------------------------------------------------------------------------------

  /** A 32-bit integer in two's complement, big endian. */
  function Int32(n: int): (s: seq<byte>)
    ensures |s| == 4
  {
    ToBE(n % TWO32, 4)
  }

  function ReadInt32(s: seq<byte>): int
    requires |s| >= 4
  {
    var u := FromBE(s[..4]);
    if u >= TWO32 / 2 then u - TWO32 else u
  }

  lemma Int32Back(n: int, rest: seq<byte>)
    requires -1 <= n <= MAX_INT32
    ensures ReadInt32(Int32(n) + rest) == n && (Int32(n) + rest)[4..] == rest
  {
    hide ToBE, FromBE;
    FieldWidths();
    FromToBE(n % TWO32, 4);
    assert (Int32(n) + rest)[..4] == Int32(n);
  }

  function DimBytes(sizes: seq<nat>): (s: seq<byte>)
    ensures |s| == 8 * |sizes|
  {
    if sizes == [] then [] else Int32(sizes[0]) + Int32(1) + DimBytes(sizes[1..])
  }

  /**
   A leaf: its length and its bytes, or -1 alone for NULL. An array among scalars is the element encoder's to take or
   refuse.
   */
  function LeafBytes(leaf: Nested, enc: Nested -> Option<seq<byte>>): Option<seq<byte>> {
    if leaf == Null then Some(Int32(-1))
    else if enc(leaf).None? then None
    else Some(Int32(|enc(leaf).value|) + enc(leaf).value)
  }

  function LeavesBytes(leaves: seq<Nested>, enc: Nested -> Option<seq<byte>>): Option<seq<byte>> {
    if leaves == [] then Some([])
    else
      var first, rest := LeafBytes(leaves[0], enc), LeavesBytes(leaves[1..], enc);
      if first.None? || rest.None? then None else Some(first.value + rest.value)
  }

  /** The whole value: dimension count, whether there is a NULL, the element type, the dimensions, the leaves. */
  function Wire(s: Shape, oid: nat, enc: Nested -> Option<seq<byte>>): Option<seq<byte>> {
    if s.Refused? then None
    else
      var body := LeavesBytes(s.leaves, enc);
      if body.None? then None
      else Some(Int32(|s.sizes|) + (Int32(if Null in s.leaves then 1
                                          else 0) + (Int32(oid) + (DimBytes(s.sizes) + body.value))))
  }

  /** appendLengthPrefixed: four bytes of room, the element, then its length put in the room. */
  method AppendLeaf(dst: seq<byte>, leaf: Nested, enc: Nested -> Option<seq<byte>>) returns (ok: bool, out: seq<byte>)
    ensures ok <==> LeafBytes(leaf, enc).Some?
    ensures ok ==> out == dst + LeafBytes(leaf, enc).value
  {
    hide Int32;
    if leaf == Null {
      return true, dst + Int32(-1);
    }
    var at := |dst|;
    out := dst + [0, 0, 0, 0];
    var e := enc(leaf);
    if e.None? {
      return false, dst;
    }
    out := out + e.value;
    var size := Int32(|out| - at - 4);
    out := out[..at] + size + out[at + 4..];
    assert out == dst + (Int32(|e.value|) + e.value);
    ok := true;
  }

  /** arrayEncoder. */
  method EncodeArray(dst: seq<byte>, n: Nested, oid: nat, enc: Nested -> Option<seq<byte>>)
  returns (ok: bool, out: seq<byte>)
    ensures var w := Wire(ArrayShape(n), oid, enc); ok == w.Some? && (ok ==> out == dst + w.value)
  {
    hide ArrayShape, Int32, DimBytes, LeavesBytes;
    var s := ComputeShape(n);
    if s.Refused? {
      return false, dst;
    }
    var hasNull := HasNull(s.leaves);
    out := dst + Int32(|s.sizes|) + Int32(if hasNull then 1 else 0) + Int32(oid);
    var dims := AppendDims(out, s.sizes);
    ok, out := AppendLeaves(dims, s.leaves, enc);
    if ok {
      var body := LeavesBytes(s.leaves, enc).value;
      Grouped(dst, Int32(|s.sizes|), Int32(if hasNull then 1 else 0), Int32(oid), DimBytes(s.sizes), body);
    }
  }

  lemma Grouped(a: seq<byte>, b: seq<byte>, c: seq<byte>, d: seq<byte>, e: seq<byte>, f: seq<byte>)
    ensures a + b + c + d + e + f == a + (b + (c + (d + (e + f))))
  {
  }

  method HasNull(leaves: seq<Nested>) returns (yes: bool)
    ensures yes == (Null in leaves)
  {
    for i := 0 to |leaves|
      invariant Null !in leaves[..i]
    {
      if leaves[i].Null? {
        return true;
      }
      assert leaves[..i + 1] == leaves[..i] + [leaves[i]];
    }
    assert leaves[..|leaves|] == leaves;
    return false;
  }

  method AppendDims(dst: seq<byte>, sizes: seq<nat>) returns (out: seq<byte>)
    ensures out == dst + DimBytes(sizes)
  {
    hide Int32;
    out := dst;
    assert sizes[0..] == sizes;
    for i := 0 to |sizes|
      invariant out + DimBytes(sizes[i..]) == dst + DimBytes(sizes)
    {
      assert sizes[i..][0] == sizes[i] && sizes[i..][1..] == sizes[i + 1..];
      assert out + (Int32(sizes[i]) + Int32(1) + DimBytes(sizes[i + 1..]))
             == out + Int32(sizes[i]) + Int32(1) + DimBytes(sizes[i + 1..]);
      out := out + Int32(sizes[i]) + Int32(1);
    }
    assert out + [] == out;
  }

  method AppendLeaves(dst: seq<byte>, leaves: seq<Nested>, enc: Nested -> Option<seq<byte>>)
  returns (ok: bool, out: seq<byte>)
    ensures ok <==> LeavesBytes(leaves, enc).Some?
    ensures ok ==> out == dst + LeavesBytes(leaves, enc).value
  {
    hide LeafBytes;
    out := dst;
    ghost var done: seq<byte> := [];
    assert leaves[0..] == leaves;
    After0(LeavesBytes(leaves, enc));
    for i := 0 to |leaves|
      invariant out == dst + done && LeavesBytes(leaves, enc) == After(done, LeavesBytes(leaves[i..], enc))
    {
      assert leaves[i..][0] == leaves[i] && leaves[i..][1..] == leaves[i + 1..];
      ok, out := AppendLeaf(out, leaves[i], enc);
      if !ok {
        return;
      }
      AfterTwice(done, LeafBytes(leaves[i], enc).value, LeavesBytes(leaves[i + 1..], enc));
      done := done + LeafBytes(leaves[i], enc).value;
    }
    ok := true;
  }

  ghost function After(done: seq<byte>, rest: Option<seq<byte>>): Option<seq<byte>> {
    if rest.None? then None else Some(done + rest.value)
  }

  lemma After0(rest: Option<seq<byte>>)
    ensures After([], rest) == rest
  {
    if rest.Some? {
      assert [] + rest.value == rest.value;
    }
  }

  lemma AfterTwice(a: seq<byte>, b: seq<byte>, rest: Option<seq<byte>>)
    ensures After(a, After(b, rest)) == After(a + b, rest)
  {
    if rest.Some? {
      assert a + (b + rest.value) == a + b + rest.value;
    }
  }

  // ---- reading ------------------------------------------------------------------------------------------------------

  /** One element: NULL for a negative length, else its value. */
  function ReadLeaf(d: seq<byte>, val: seq<byte> -> Option<seq<byte>>): Got<seq<byte>> {
    if |d| < 4 then No
    else
      var size := ReadInt32(d);
      if size < 0 then Got([0xf6], d[4..])
      else if size > |d| - 4 then No
      else
        var v := val(d[4..][..size]);
        if v.None? then No else Got(v.value, d[4..][size..])
  }

  /** A level of the nesting: the head of its array, then its elements. */
  function ReadLevel(sizes: seq<nat>, d: seq<byte>, val: seq<byte> -> Option<seq<byte>>): Got<seq<byte>>
    requires sizes != []
    decreases |sizes|, 0, 0
  {
    var g := ReadMany(sizes, sizes[0], d, val);
    if g.No? then No else Got(HeadBytes(4, sizes[0] % TWO64) + g.value, g.rest)
  }

  function First(sizes: seq<nat>, d: seq<byte>, val: seq<byte> -> Option<seq<byte>>): Got<seq<byte>>
    requires sizes != []
    decreases |sizes| - 1, 1, 0
  {
    if |sizes| == 1 then ReadLeaf(d, val) else ReadLevel(sizes[1..], d, val)
  }

  function ReadMany(sizes: seq<nat>, count: nat, d: seq<byte>, val: seq<byte> -> Option<seq<byte>>): Got<seq<byte>>
    requires sizes != []
    decreases |sizes| - 1, 2, count
  {
    if count == 0 then Got([], d)
    else
      var first := First(sizes, d, val);
      if first.No? then No
      else
        var rest := ReadMany(sizes, count - 1, first.rest, val);
        if rest.No? then No else Got(first.value + rest.value, rest.rest)
  }

  /** The sizes of the dimensions, as long as their product stays within 32 bits. */
  function ReadDims(d: seq<byte>, ndim: nat, total: nat): Option<seq<nat>>
    requires |d| >= 8 * ndim
    decreases ndim
  {
    if ndim == 0 then Some([])
    else
      var size := ReadInt32(d);
      if size < 0 || (size > 0 && total > MAX_INT32 / size) then None
      else
        var rest := ReadDims(d[8..], ndim - 1, total * size);
        if rest.None? then None else Some([size] + rest.value)
  }

  /** appendArray: a binary array as nested CBOR arrays, one level per dimension. */
  function ReadArray(d: seq<byte>, val: seq<byte> -> Option<seq<byte>>): Option<seq<byte>> {
    if |d| < 12 then None
    else
      var ndim, body := ReadInt32(d), d[12..];
      if ndim < 0 || ndim > MAX_DIMS || |body| < 8 * ndim then None
      else if ndim == 0 then Some(HeadBytes(4, 0))
      else
        var sizes := ReadDims(body, ndim, 1);
        if sizes.None? || sizes.value == [] || Product(sizes.value) > (|body| - 8 * ndim) / 4 then None
        else
          var g := ReadLevel(sizes.value, body[8 * ndim..], val);
          if g.No? then None else Some(g.value)
  }

  /** The buffer written to and the bytes left, which the walk over the levels shares. */
  class ArrayReader {
    const val: seq<byte> -> Option<seq<byte>>
    var dst: seq<byte>
    var d: seq<byte>

    constructor (dst: seq<byte>, d: seq<byte>, val: seq<byte> -> Option<seq<byte>>)
      ensures this.dst == dst && this.d == d && this.val == val
    {
      this.dst := dst;
      this.d := d;
      this.val := val;
    }

    method Walk(sizes: seq<nat>) returns (ok: bool)
      requires sizes != []
      modifies this
      ensures var g := ReadLevel(sizes, old(d), val);
              ok == g.Got? && (ok ==> dst == old(dst) + g.value && d == g.rest)
      decreases |sizes|, 0
    {
      hide HeadBytes, First, ReadMany, Joined;
      dst := dst + HeadBytes(4, sizes[0] % TWO64);
      ghost var start := dst;
      ghost var whole := ReadMany(sizes, sizes[0], d, val);
      ghost var done: seq<byte> := [];
      Joined0(whole);
      for i := 0 to sizes[0]
        invariant dst == start + done
        invariant whole == Joined(done, ReadMany(sizes, sizes[0] - i, d, val))
      {
        ManyStep(sizes, sizes[0] - i, d, val);
        ghost var first := First(sizes, d, val);
        ok := Element(sizes);
        if !ok {
          NotJoined(done, No);
          return;
        }
        JoinedTwice(done, first.value, ReadMany(sizes, sizes[0] - i - 1, d, val));
        done := done + first.value;
      }
      AllJoined(sizes, done, d, val);
      ok := true;
    }

    /** One element of a level: a leaf on the last, a level below otherwise. */
    method Element(sizes: seq<nat>) returns (ok: bool)
      requires sizes != []
      modifies this
      ensures var g := First(sizes, old(d), val);
              ok == g.Got? && (ok ==> dst == old(dst) + g.value && d == g.rest)
      decreases |sizes| - 1, 1
    {
      hide ReadLeaf, ReadLevel;
      if |sizes| > 1 {
        ok := Walk(sizes[1..]);
      } else {
        ok := Leaf();
      }
    }

    method Leaf() returns (ok: bool)
      modifies this
      ensures var g := ReadLeaf(old(d), val);
              ok == g.Got? && (ok ==> dst == old(dst) + g.value && d == g.rest)
    {
      if |d| < 4 {
        return false;
      }
      var size := ReadInt32(d);
      d := d[4..];
      if size < 0 {
        dst := dst + [0xf6];
        return true;
      }
      if size > |d| {
        return false;
      }
      var v := val(d[..size]);
      if v.None? {
        return false;
      }
      dst := dst + v.value;
      d := d[size..];
      ok := true;
    }
  }

  ghost function Joined(done: seq<byte>, g: Got<seq<byte>>): Got<seq<byte>> {
    if g.No? then No else Got(done + g.value, g.rest)
  }

  lemma ManyStep(sizes: seq<nat>, count: nat, d: seq<byte>, val: seq<byte> -> Option<seq<byte>>)
    requires sizes != [] && count > 0
    ensures ReadMany(sizes, count, d, val)
            == var first := First(sizes, d, val);
               if first.No? then No else Joined(first.value, ReadMany(sizes, count - 1, first.rest, val))
  {
    hide First;
  }

  lemma NotJoined(done: seq<byte>, g: Got<seq<byte>>)
    ensures Joined(done, g).No? <==> g.No?
  {
  }

  lemma AllJoined(sizes: seq<nat>, done: seq<byte>, d: seq<byte>, val: seq<byte> -> Option<seq<byte>>)
    requires sizes != []
    ensures Joined(done, ReadMany(sizes, 0, d, val)) == Got(done, d)
  {
    assert done + [] == done;
  }

  lemma Joined0(g: Got<seq<byte>>)
    ensures Joined([], g) == g
  {
    if g.Got? {
      assert [] + g.value == g.value;
    }
  }

  lemma JoinedTwice(a: seq<byte>, b: seq<byte>, g: Got<seq<byte>>)
    ensures Joined(a, Joined(b, g)) == Joined(a + b, g)
  {
    if g.Got? {
      assert a + (b + g.value) == a + b + g.value;
    }
  }

  method AppendArray(dst: seq<byte>, d: seq<byte>, val: seq<byte> -> Option<seq<byte>>)
  returns (ok: bool, out: seq<byte>)
    ensures var r := ReadArray(d, val); ok == r.Some? && (ok ==> out == dst + r.value)
  {
    hide ReadInt32, HeadBytes, ReadLevel;
    out := dst;
    if |d| < 12 {
      return false, dst;
    }
    var ndim, body := ReadInt32(d), d[12..];
    if ndim < 0 || ndim > MAX_DIMS || |body| < 8 * ndim {
      return false, dst;
    }
    if ndim == 0 {
      return true, dst + HeadBytes(4, 0);
    }
    var good, sizes, total := Dimensions(body, ndim);
    if !good || total > (|body| - 8 * ndim) / 4 {
      return false, dst;
    }
    var r := new ArrayReader(dst, body[8 * ndim..], val);
    ok := r.Walk(sizes);
    out := if ok then r.dst else dst;
  }

  method Dimensions(body: seq<byte>, ndim: nat) returns (ok: bool, sizes: seq<nat>, total: nat)
    requires |body| >= 8 * ndim && ndim > 0
    ensures ok <==> ReadDims(body, ndim, 1).Some?
    ensures ok ==> sizes == ReadDims(body, ndim, 1).value && sizes != [] && total == Product(sizes)
  {
    hide ReadInt32, Product;
    sizes, total := [], 1;
    assert body[8 * 0..] == body;
    NoDims();
    Behind0(ReadDims(body, ndim, 1));
    for i := 0 to ndim
      invariant |sizes| == i && total == Product(sizes)
      invariant ReadDims(body, ndim, 1) == Behind(sizes, ReadDims(body[8 * i..], ndim - i, total))
    {
      var size := ReadInt32(body[8 * i..]);
      assert body[8 * i..][8..] == body[8 * (i + 1)..];
      if size < 0 || (size > 0 && total > MAX_INT32 / size) {
        return false, sizes, total;
      }
      BehindTwice(sizes, size, ReadDims(body[8 * (i + 1)..], ndim - i - 1, total * size));
      ProductLast(sizes, size);
      sizes := sizes + [size];
      total := total * size;
    }
    ok := true;
  }

  ghost function Behind(sizes: seq<nat>, rest: Option<seq<nat>>): Option<seq<nat>> {
    if rest.None? then None else Some(sizes + rest.value)
  }

  lemma Behind0(rest: Option<seq<nat>>)
    ensures Behind([], rest) == rest
  {
    if rest.Some? {
      assert [] + rest.value == rest.value;
    }
  }

  lemma BehindTwice(sizes: seq<nat>, size: nat, rest: Option<seq<nat>>)
    ensures Behind(sizes, if rest.None? then None else Some([size] + rest.value)) == Behind(sizes + [size], rest)
  {
    if rest.Some? {
      assert sizes + ([size] + rest.value) == sizes + [size] + rest.value;
    }
  }

  lemma NoDims()
    ensures Product([]) == 1
  {
  }

  lemma {:induction false} ProductLast(sizes: seq<nat>, size: nat)
    ensures Product(sizes + [size]) == Product(sizes) * size
  {
    if sizes == [] {
      assert [size][1..] == [];
    } else {
      ProductLast(sizes[1..], size);
      assert (sizes + [size])[1..] == sizes[1..] + [size];
      MulAssoc(sizes[0], Product(sizes[1..]), size);
    }
  }

  lemma MulAssoc(a: int, b: int, c: int)
    ensures a * (b * c) == (a * b) * c
  {
  }

  // ---- the round trip ---------------------------------------------------------------------------------------------

  /** Every value can be written and read, in a length 32 bits can say. */
  ghost predicate Carried(leaves: seq<Nested>, enc: Nested -> Option<seq<byte>>, val: seq<byte> -> Option<seq<byte>>) {
    forall i :: 0 <= i < |leaves| && leaves[i].Scalar? ==> CarriedValue(leaves[i], enc, val)
  }

  predicate CarriedValue(v: Nested, enc: Nested -> Option<seq<byte>>, val: seq<byte> -> Option<seq<byte>>) {
    enc(v).Some? && |enc(v).value| <= MAX_INT32 && val(enc(v).value).Some?
  }

  /** The value as nested CBOR arrays. */
  ghost function CborOf(n: Nested, enc: Nested -> Option<seq<byte>>, val: seq<byte> -> Option<seq<byte>>): seq<byte>
    decreases n, 0
  {
    match n
    case Null => [0xf6]
    case Scalar(_) => if CarriedValue(n, enc, val) then val(enc(n).value).value else []
    case Arr(items) => HeadBytes(4, |items| % TWO64) + CborOfAll(items, enc, val)
  }

  ghost function CborOfAll(items: seq<Nested>, enc: Nested -> Option<seq<byte>>,
                           val: seq<byte> -> Option<seq<byte>>): seq<byte>
    decreases items, 1
  {
    if items == [] then [] else CborOf(items[0], enc, val) + CborOfAll(items[1..], enc, val)
  }

  lemma {:induction false} LeavesJoin(a: seq<Nested>, b: seq<Nested>, enc: Nested -> Option<seq<byte>>)
    ensures LeavesBytes(a, enc).Some? && LeavesBytes(b, enc).Some?
            ==> LeavesBytes(a + b, enc).Some? && LeavesBytes(a + b, enc).value
                == LeavesBytes(a, enc).value + LeavesBytes(b, enc).value
  {
    hide LeafBytes;
    if a == [] {
      assert a + b == b;
      if LeavesBytes(b, enc).Some? {
        assert [] + LeavesBytes(b, enc).value == LeavesBytes(b, enc).value;
      }
    } else {
      LeavesJoin(a[1..], b, enc);
      assert (a + b)[1..] == a[1..] + b;
      if LeavesBytes(a, enc).Some? && LeavesBytes(b, enc).Some? {
        var first := LeafBytes(a[0], enc).value;
        assert first + (LeavesBytes(a[1..], enc).value + LeavesBytes(b, enc).value)
               == first + LeavesBytes(a[1..], enc).value + LeavesBytes(b, enc).value;
      }
    }
  }

  lemma {:induction false} LeavesWritten(leaves: seq<Nested>, enc: Nested -> Option<seq<byte>>,
                                         val: seq<byte> -> Option<seq<byte>>)
    requires AllScalar(leaves) && Carried(leaves, enc, val)
    ensures LeavesBytes(leaves, enc).Some? && |LeavesBytes(leaves, enc).value| >= 4 * |leaves|
  {
    hide Int32;
    if leaves != [] {
      assert !leaves[0].Arr? && (leaves[0].Scalar? ==> CarriedValue(leaves[0], enc, val));
      LeavesWritten(leaves[1..], enc, val);
    }
  }

  lemma LeafBack(n: Nested, rest: seq<byte>, enc: Nested -> Option<seq<byte>>, val: seq<byte> -> Option<seq<byte>>)
    requires !n.Arr? && (n.Scalar? ==> CarriedValue(n, enc, val))
    ensures LeafBytes(n, enc).Some? && ReadLeaf(LeafBytes(n, enc).value + rest, val) == Got(CborOf(n, enc, val), rest)
  {
    hide Int32, ReadInt32;
    if n.Null? {
      Int32Back(-1, rest);
    } else {
      var b := enc(n).value;
      assert Int32(|b|) + b + rest == Int32(|b|) + (b + rest);
      Int32Back(|b|, b + rest);
      assert (b + rest)[..|b|] == b && (b + rest)[|b|..] == rest;
    }
  }

  lemma {:induction false} LevelBack(n: Nested, dims: seq<nat>, rest: seq<byte>, enc: Nested -> Option<seq<byte>>,
                                     val: seq<byte> -> Option<seq<byte>>)
    requires dims != [] && Uniform(n, dims) && Carried(Flat(n), enc, val)
    ensures LeavesBytes(Flat(n), enc).Some? && ReadLevel(dims, LeavesBytes(Flat(n), enc).value + rest, val)
            == Got(CborOf(n, enc, val), rest)
    decreases n, 0
  {
    hide HeadBytes, ReadMany, CborOfAll;
    ManyBack(n.items, dims, rest, enc, val);
  }

  lemma {:induction false} ManyBack(items: seq<Nested>, dims: seq<nat>, rest: seq<byte>,
                                    enc: Nested -> Option<seq<byte>>, val: seq<byte> -> Option<seq<byte>>)
    requires dims != [] && (forall i :: 0 <= i < |items| ==> Uniform(items[i], dims[1..]))
             && Carried(FlatAll(items), enc, val)
    ensures LeavesBytes(FlatAll(items), enc).Some?
    ensures ReadMany(dims, |items|, LeavesBytes(FlatAll(items), enc).value + rest, val)
            == Got(CborOfAll(items, enc, val), rest)
    decreases items, 1
  {
    hide LeafBytes, First, CborOf;
    if items == [] {
      assert LeavesBytes([], enc).value + rest == rest;
    } else {
      var x, more := Flat(items[0]), FlatAll(items[1..]);
      CarriedSplit(x, more, enc, val);
      ManyBack(items[1..], dims, rest, enc, val);
      var after := LeavesBytes(more, enc).value + rest;
      FirstBack(items[0], dims, after, enc, val);
      LeavesJoin(x, more, enc);
      assert LeavesBytes(x, enc).value + LeavesBytes(more, enc).value + rest == LeavesBytes(x, enc).value + after;
    }
  }

  /** The first element of a level, a value or an array below it. */
  lemma {:induction false} FirstBack(n: Nested, dims: seq<nat>, after: seq<byte>, enc: Nested -> Option<seq<byte>>,
                                     val: seq<byte> -> Option<seq<byte>>)
    requires dims != [] && Uniform(n, dims[1..]) && Carried(Flat(n), enc, val)
    ensures LeavesBytes(Flat(n), enc).Some?
    ensures var d := LeavesBytes(Flat(n), enc).value + after;
            First(dims, d, val) == Got(CborOf(n, enc, val), after)
    decreases n, 2
  {
    hide LeafBytes, ReadLeaf, ReadLevel, CborOf;
    if |dims| == 1 {
      assert n.Scalar? ==> CarriedValue(n, enc, val) by {
        assert Flat(n)[0] == n;
      }
      LeafBack(n, after, enc, val);
      OneLeaf(n, enc);
    } else {
      LevelBack(n, dims[1..], after, enc, val);
    }
  }

  lemma OneLeaf(n: Nested, enc: Nested -> Option<seq<byte>>)
    requires LeafBytes(n, enc).Some?
    ensures LeavesBytes([n], enc) == LeafBytes(n, enc)
  {
    hide LeafBytes;
    assert LeavesBytes([n][1..], enc) == Some([]);
    assert LeafBytes(n, enc).value + [] == LeafBytes(n, enc).value;
  }

  lemma CarriedSplit(a: seq<Nested>, b: seq<Nested>, enc: Nested -> Option<seq<byte>>,
                     val: seq<byte> -> Option<seq<byte>>)
    requires Carried(a + b, enc, val)
    ensures Carried(a, enc, val) && Carried(b, enc, val)
  {
    forall i | 0 <= i < |a| && a[i].Scalar? ensures CarriedValue(a[i], enc, val) {
      assert (a + b)[i] == a[i];
    }
    forall i | 0 <= i < |b| && b[i].Scalar? ensures CarriedValue(b[i], enc, val) {
      assert (a + b)[|a| + i] == b[i];
    }
  }

  lemma {:induction false} DimsBack(sizes: seq<nat>, total: nat, rest: seq<byte>)
    requires Positive(sizes) && total > 0 && total * Product(sizes) <= MAX_INT32
    ensures ReadDims(DimBytes(sizes) + rest, |sizes|, total) == Some(sizes)
    decreases |sizes|
  {
    hide Int32, ReadInt32;
    if sizes != [] {
      var size, more := sizes[0], DimBytes(sizes[1..]) + rest;
      var d := DimBytes(sizes) + rest;
      assert d == Int32(size) + (Int32(1) + more);
      assert size > 0;
      ProductPositive(sizes[1..]);
      SizeFits(total, size, Product(sizes[1..]));
      Int32Back(size, Int32(1) + more);
      assert d[8..] == more;
      DimsBack(sizes[1..], total * size, rest);
      assert sizes == [size] + sizes[1..];
    }
  }

  lemma {:induction false} ProductPositive(sizes: seq<nat>)
    requires Positive(sizes)
    ensures Product(sizes) > 0
  {
    if sizes != [] {
      ProductPositive(sizes[1..]);
      assert sizes[0] > 0;
    }
  }

  lemma SizeFits(total: nat, size: nat, more: nat)
    requires total > 0 && size > 0 && more > 0 && total * (size * more) <= MAX_INT32
    ensures total <= MAX_INT32 / size && size <= MAX_INT32 && total * size * more <= MAX_INT32 && total * size > 0
  {
    MulAssoc(total, size, more);
    AtLeast(total * size, more);
    AtLeast(size, total);
    DivBound(total, size, MAX_INT32 / size);
  }

  lemma AtLeast(x: nat, k: nat)
    requires k > 0
    ensures x * k >= x && k * x >= x
  {
  }

  lemma DivBound(total: nat, size: nat, q: nat)
    requires size > 0 && total * size <= MAX_INT32 && MAX_INT32 < (q + 1) * size
    ensures total <= q
  {
    if total > q {
      Grows(q + 1, total, size);
    }
  }

  lemma Grows(a: nat, b: nat, k: nat)
    requires a <= b
    ensures a * k <= b * k
  {
  }

  /** A rectangular array of at most six dimensions comes back with the same nesting. */
  lemma ArrayBack(n: Nested, dims: seq<nat>, oid: nat, enc: Nested -> Option<seq<byte>>,
                  val: seq<byte> -> Option<seq<byte>>)
    requires dims != [] && Positive(dims) && Uniform(n, dims) && Carried(Flat(n), enc, val)
             && Product(dims) <= MAX_INT32 && |dims| <= MAX_INT32
    ensures var w := Wire(ArrayShape(n), oid, enc);
            w.Some? && ReadArray(w.value, val) == if |dims| <= 6 then Some(CborOf(n, enc, val)) else None
  {
    hide ArrayShape, Int32, ReadInt32, ReadLevel, CborOf, LeavesBytes, ReadDims, DimBytes, Uniform, HeadBytes, Product;
    UniformShape(n, dims);
    UniformScalars(n, dims);
    LeavesWritten(Flat(n), enc, val);
    ProductCounts(n, dims);
    var leaves := LeavesBytes(Flat(n), enc).value;
    var body := DimBytes(dims) + leaves;
    var w := Wire(ArrayShape(n), oid, enc).value;
    Header(dims, if Null in Flat(n) then 1 else 0, oid, body);
    if |dims| <= 6 {
      DimsBack(dims, 1, leaves);
      assert body[8 * |dims|..] == leaves && leaves + [] == leaves;
      LevelBack(n, dims, [], enc, val);
    }
  }

  lemma Header(dims: seq<nat>, flag: int, oid: nat, body: seq<byte>)
    requires |dims| <= MAX_INT32
    ensures var w := Int32(|dims|) + (Int32(flag) + (Int32(oid) + body));
            |w| >= 12 && ReadInt32(w) == |dims| && w[12..] == body
  {
    hide Int32, ReadInt32;
    Int32Back(|dims|, Int32(flag) + (Int32(oid) + body));
  }

  /** An array that holds nothing comes back empty, whatever its nesting was. */
  lemma EmptyBack(n: Nested, oid: nat, enc: Nested -> Option<seq<byte>>, val: seq<byte> -> Option<seq<byte>>)
    requires Hollow(n)
    ensures var w := Wire(ArrayShape(n), oid, enc);
            w.Some? && ReadArray(w.value, val) == Some(CborOf(Arr([]), enc, val))
  {
    hide ArrayShape, Int32, ReadInt32, ReadLevel, ReadDims;
    HollowShape(n);
    Header([], 0, oid, DimBytes([]) + LeavesBytes([], enc).value);
    assert HeadBytes(4, 0) + [] == HeadBytes(4, 0);
  }
}
