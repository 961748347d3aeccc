/**
 The one-pass reader of query/node_cbor.go: it advances a position through the data, appends to the arena
 and keeps the structures defined so far. Each method is proved to compute the reader of `CborItem`: it
 fails exactly when that reader fails, and otherwise adds a node that stands for the item read.
 */
module CborDecoder {
  import opened Bytes
  import opened Utf8
  import opened CborItem
  import opened CborArena

  type Structs = map<nat, seq<nat>>

  ghost predicate StructsOk(ar: Arena, structs: Structs) {
    forall id :: id in structs ==> AreNames(ar, structs[id])
  }

  /** The name lists the table of node indexes stands for. */
  ghost function TableOf(ar: Arena, structs: Structs): Table
    requires WF(ar) && StructsOk(ar, structs)
  {
    map id | id in structs :: NamesOf(ar, structs[id])
  }

  lemma GrowsTable(ar1: Arena, ar2: Arena, structs: Structs)
    requires WF(ar1) && WF(ar2) && Grows(ar1, ar2) && StructsOk(ar1, structs)
    ensures StructsOk(ar2, structs) && TableOf(ar2, structs) == TableOf(ar1, structs)
  {
    hide View, NamesOf, WF, Grows;
    forall id | id in structs
      ensures AreNames(ar2, structs[id]) && NamesOf(ar2, structs[id]) == NamesOf(ar1, structs[id])
    {
      GrowsLists(ar1, ar2, structs[id]);
    }
  }

  /** A loop that has read `done` and still has `rest` to read is on its way to `whole`. */
  ghost predicate OnTheWay<T>(whole: Read<seq<T>>, done: seq<T>, rest: Read<seq<T>>) {
    && whole.Fail? == rest.Fail?
    && (whole.Done? ==> whole.value == done + rest.value && whole.rest == rest.rest && whole.table == rest.table)
  }

  lemma SliceAt(data: seq<byte>, p: nat, size: nat)
    requires p + 1 + size <= |data|
    ensures data[p..][1..1 + size] == data[p + 1..p + 1 + size] && data[p..][1 + size..] == data[p + 1 + size..]
  {
  }

  lemma OnTheWayStart<T>(whole: Read<seq<T>>)
    ensures OnTheWay(whole, [], whole)
  {
    assert whole.Done? ==> [] + whole.value == whole.value;
  }

  lemma ChunkStep(whole: Read<seq<byte>>, done: seq<byte>, rest: seq<byte>, major: nat, table: Table)
    requires OnTheWay(whole, done, ReadChunks(rest, major, table))
    ensures rest == [] ==> whole.Fail?
    ensures rest != [] && rest[0] == BREAK ==> whole == Done(done, rest[1..], table)
    ensures rest != [] && rest[0] != BREAK ==>
              var c := ReadHead(rest);
              if c.NoHead? || c.major != major || c.indef || c.val > |c.rest|
                 || (major == 3 && !ValidUtf8(c.rest[..c.val])) then whole.Fail?
              else OnTheWay(whole, done + c.rest[..c.val], ReadChunks(c.rest[c.val..], major, table))
  {
    hide ReadHead, ValidUtf8;
    if rest != [] && rest[0] == BREAK {
      assert done + [] == done;
    }
  }

  lemma ItemsWay(whole: Read<seq<Item>>, done: seq<Item>, rest: seq<byte>, len: Length, depth: nat, table: Table,
                 isTime: seq<byte> -> bool)
    requires OnTheWay(whole, done, ReadItems(rest, len, depth, table, isTime))
    ensures len == Count(0) ==> whole == Done(done, rest, table)
    ensures len.ToBreak? && rest == [] ==> whole.Fail?
    ensures len.ToBreak? && rest != [] && rest[0] == BREAK ==> whole == Done(done, rest[1..], table)
    ensures len != Count(0) && (len.ToBreak? ==> rest != [] && rest[0] != BREAK) ==>
              var x := ReadItem(rest, depth, table, isTime);
              if x.Fail? then whole.Fail?
              else OnTheWay(whole, done + [x.value], ReadItems(x.rest, len.Less(), depth, x.table, isTime))
  {
    hide ReadItem;
    assert done + [] == done;
  }

  lemma ViewsSnoc(ar: Arena, idxs: seq<nat>, e: nat)
    requires WF(ar) && InBounds(ar, idxs) && e < |ar.nodes|
    ensures InBounds(ar, idxs + [e]) && Views(ar, idxs + [e]) == Views(ar, idxs) + [View(ar, e)]
  {
    hide View, WF;
  }

  lemma PairsWay(whole: Read<seq<(seq<byte>, Item)>>, done: seq<(seq<byte>, Item)>, rest: seq<byte>, len: Length,
                 depth: nat, table: Table, isTime: seq<byte> -> bool)
    requires OnTheWay(whole, done, ReadPairs(rest, len, depth, table, isTime))
    ensures len == Count(0) ==> whole == Done(done, rest, table)
    ensures len.ToBreak? && rest == [] ==> whole.Fail?
    ensures len.ToBreak? && rest != [] && rest[0] == BREAK ==> whole == Done(done, rest[1..], table)
    ensures len != Count(0) && (len.ToBreak? ==> rest != [] && rest[0] != BREAK) ==>
              var p := ReadPair(rest, depth, table, isTime);
              if p.Fail? then whole.Fail?
              else OnTheWay(whole, done + [p.value], ReadPairs(p.rest, len.Less(), depth, p.table, isTime))
  {
    hide ReadItem;
    assert done + [] == done;
  }

  /** One key and its value. */
  ghost function ReadPair(rest: seq<byte>, depth: nat, table: Table,
                          isTime: seq<byte> -> bool): Read<(seq<byte>, Item)> {
    var k := ReadItem(rest, depth, table, isTime);
    if k.Fail? || !k.value.Text? then Fail
    else
      var v := ReadItem(k.rest, depth, k.table, isTime);
      if v.Fail? then Fail else Done((k.value.s, v.value), v.rest, v.table)
  }

  lemma PairsSnoc(ar: Arena, idxs: seq<nat>, k: nat, v: nat)
    requires WF(ar) && ArePairs(ar, idxs) && k < |ar.nodes| && v < |ar.nodes| && ar.nodes[k].kind.ItText?
    ensures ArePairs(ar, idxs + [k, v])
    ensures PairsOf(ar, idxs + [k, v]) == PairsOf(ar, idxs) + [(NameOf(ar, k), View(ar, v))]
  {
    hide View, WF, NameOf;
    var more := idxs + [k, v];
    forall j | 0 <= j < |more| / 2 ensures ar.nodes[more[2 * j]].kind.ItText? {
      assert more[2 * j] == if j < |idxs| / 2 then idxs[2 * j] else k;
    }
    forall j | 0 <= j < |more| / 2
      ensures PairsOf(ar, more)[j] == (PairsOf(ar, idxs) + [(NameOf(ar, k), View(ar, v))])[j]
    {
      assert more[2 * j + 1] == if j < |idxs| / 2 then idxs[2 * j + 1] else v;
    }
  }

  lemma NamesWay(whole: Read<seq<seq<byte>>>, done: seq<seq<byte>>, rest: seq<byte>, n: nat, depth: nat, table: Table,
                 isTime: seq<byte> -> bool)
    requires OnTheWay(whole, done, ReadNames(rest, n, depth, table, isTime))
    ensures n == 0 ==> whole == Done(done, rest, table)
    ensures n > 0 ==>
              var k := ReadItem(rest, depth, table, isTime);
              if k.Fail? || !k.value.Text? then whole.Fail?
              else OnTheWay(whole, done + [k.value.s], ReadNames(k.rest, n - 1, depth, k.table, isTime))
  {
    hide ReadItem;
    assert done + [] == done;
  }

  /** An array of two holds its two kids. */
  lemma TwoItems(ar: Arena, c: nat)
    requires WF(ar) && c < |ar.nodes| && ar.nodes[c].kind.ItArray? && ar.nodes[c].b == 2
    ensures ar.nodes[c].a + 2 <= |ar.kids| && ar.kids[ar.nodes[c].a] < |ar.nodes|
            && ar.kids[ar.nodes[c].a + 1] < |ar.nodes|
    ensures View(ar, c) == Arr([View(ar, ar.kids[ar.nodes[c].a]), View(ar, ar.kids[ar.nodes[c].a + 1])])
  {
    var n := ar.nodes[c];
    assert NodeOk(ar, n, c);
    assert ar.kids[Slot(n, 0)] < c && ar.kids[Slot(n, 1)] < c;
  }

  lemma TextAt(ar: Arena, i: nat)
    requires WF(ar) && i < |ar.nodes|
    ensures ar.nodes[i].kind.ItNumText? ==> ar.nodes[i].a < |ar.strs|
  {
    assert NodeOk(ar, ar.nodes[i], i);
  }

  lemma NoPairs(ar: Arena, names: seq<seq<byte>>)
    requires WF(ar)
    ensures ArePairs(ar, []) && PairsOf(ar, []) == Zip(names[..0], [])
  {
  }

  lemma ZipSnoc(names: seq<seq<byte>>, i: nat, values: seq<Item>, x: Item)
    requires i < |names| && |values| == i
    ensures Zip(names[..i + 1], values + [x]) == Zip(names[..i], values) + [(names[i], x)]
  {
  }

  lemma NamesSnoc(ar: Arena, idxs: seq<nat>, k: nat)
    requires WF(ar) && AreNames(ar, idxs) && k < |ar.nodes| && ar.nodes[k].kind.ItText?
    ensures AreNames(ar, idxs + [k]) && NamesOf(ar, idxs + [k]) == NamesOf(ar, idxs) + [NameOf(ar, k)]
  {
    hide WF, NameOf;
  }

  /** What follows the head of a tag. */
  ghost function ReadTagged(tag: nat, rest: seq<byte>, depth: nat, table: Table,
                            isTime: seq<byte> -> bool): Read<Item> {
    if IsStructureTag(tag) then ReadStructure(tag, rest, depth, table, isTime)
    else
      var c := ReadItem(rest, depth + 1, table, isTime);
      if c.Fail? then Fail
      else
        var m := TagMeaning(tag, c.value, isTime);
        if m.Refused? then Fail else Done(m.item, c.rest, c.table)
  }

  predicate IsLeaf(n: Node) {
    match n.kind
    case ItNull => true
    case ItFalse => true
    case ItTrue => true
    case ItInt => IsUint64(n.extra)
    case ItUint => n.extra >= TWO63
    case ItNegBig => n.extra >= TWO63
    case ItFloat => true
    case ItDate => IsUint64(n.extra)
    case ItBadTag => true
    case _ => false
  }

  ghost function LeafItem(n: Node): Item
    requires IsLeaf(n)
  {
    match n.kind
    case ItNull => Null
    case ItFalse => Bool(false)
    case ItTrue => Bool(true)
    case ItInt => Int(ToInt64(n.extra))
    case ItUint => Int(n.extra)
    case ItNegBig => Int(-1 - n.extra)
    case ItFloat => Float(n.b, n.extra)
    case ItDate => Date(ToInt64(n.extra))
    case ItBadTag => BadTag(n.extra)
  }

  ghost function StringItemOf(kind: Kind, s: seq<byte>): Item {
    if kind.ItText? then Text(s) else if kind.ItBytes? then Blob(s) else Uuid(s)
  }

  lemma GrowsSelf(ar: Arena)
    ensures Grows(ar, ar)
  {
  }

  class Decoder {
    const isTime: seq<byte> -> bool
    var doc: Arena
    var pos: nat
    var structs: Structs

    ghost predicate Valid()
      reads this
    {
      pos <= |doc.data| && WF(doc) && StructsOk(doc, structs)
    }

    ghost function Rest(): seq<byte>
      reads this
      requires pos <= |doc.data|
    {
      doc.data[pos..]
    }

    ghost function Defs(): Table
      reads this
      requires Valid()
    {
      TableOf(doc, structs)
    }

    /** The reader stands where the result says: after the value, with its structures. */
    ghost predicate At<T>(r: Read<T>)
      reads this
    {
      Valid() && r.Done? && Rest() == r.rest && Defs() == r.table
    }

    constructor (data: seq<byte>, isTime: seq<byte> -> bool)
      ensures Valid() && doc == Arena(data, [], [], [], [], []) && pos == 0 && structs == map[] && this.isTime == isTime
    {
      this.isTime := isTime;
      doc, pos, structs := Arena(data, [], [], [], [], []), 0, map[];
    }

    method Head() returns (h: HeadRead)
      requires pos <= |doc.data|
      modifies this`pos
      ensures h == ReadHead(old(Rest()))
      ensures old(pos) <= pos <= |doc.data|
      ensures h.Head? ==> pos > old(pos) && Rest() == h.rest
    {
      hide FromBE;
      if |doc.data| - pos < 1 {
        return NoHead;
      }
      var b := doc.data[pos];
      pos := pos + 1;
      var major, ai := b / 32, b % 32;
      if ai < 24 {
        return HeadRead.Head(major, ai, ai, false, doc.data[pos..]);
      } else if ai < 28 {
        var size := if ai == 24 then 1 else if ai == 25 then 2 else if ai == 26 then 4 else 8;
        if |doc.data| - pos < size {
          return NoHead;
        }
        var raw := doc.data[pos..pos + size];
        SliceAt(doc.data, old(pos), size);
        pos := pos + size;
        return HeadRead.Head(major, ai, FromBE(raw), false, doc.data[pos..]);
      } else if ai == 31 {
        return HeadRead.Head(major, ai, 0, true, doc.data[pos..]);
      }
      return NoHead;
    }

    /** Appends a finished node. */
    method Add(n: Node) returns (idx: nat)
      requires Valid() && NodeOk(doc, n, |doc.nodes|)
      modifies this`doc
      ensures Valid() && doc == old(doc).(nodes := old(doc).nodes + [n]) && idx == |old(doc).nodes|
      ensures Grows(old(doc), doc) && Defs() == old(Defs())
    {
      hide NodeOk, WF, Grows;
      AddNode(doc, n);
      GrowsTable(doc, doc.(nodes := doc.nodes + [n]), structs);
      doc := doc.(nodes := doc.nodes + [n]);
      return |doc.nodes| - 1;
    }

    /** Appends the node that ends an item begun at `p1` on arena `ar1`. */
    method Finish(n: Node, ghost ar1: Arena, ghost p1: nat) returns (idx: nat)
      requires Valid() && NodeOk(doc, n, |doc.nodes|) && WF(ar1)
      requires Progress(ar1, p1 + 1, doc, pos) && (Slots(n) > 0 ==> n.a >= |ar1.kids|)
      modifies this`doc
      ensures Valid() && doc == old(doc).(nodes := old(doc).nodes + [n]) && idx == |doc.nodes| - 1
      ensures Grows(old(doc), doc) && Defs() == old(Defs())
      ensures Progress(ar1, p1, doc, pos)
    {
      hide NodeOk, WF;
      GrowsTrans(ar1, doc, doc.(nodes := doc.nodes + [n])) by { AddNode(doc, n); }
      idx := Add(n);
    }

    /** The item that started at `p1` on arena `ar1` was read as `r` says, and node idx stands for it. */
    ghost predicate Landed(ar1: Arena, p1: nat, r: Read<Item>, idx: int)
      reads this
    {
      && At(r) && 0 <= idx == |doc.nodes| - 1 && View(doc, idx) == r.value
      && Progress(ar1, p1, doc, pos) && p1 < pos
    }

    /** Ends an item that is a node without children, text or time. */
    method FinishLeaf(n: Node, ghost ar1: Arena, ghost p1: nat, ghost r: Read<Item>) returns (idx: int)
      requires Valid() && WF(ar1) && IsLeaf(n) && Progress(ar1, p1 + 1, doc, pos)
      requires r == Done(LeafItem(n), Rest(), Defs())
      modifies this`doc
      ensures Landed(ar1, p1, r, idx)
    {
      idx := Finish(n, ar1, p1);
    }

    /** item: one data item, as the index of its node, or -1. */
    method Item(depth: nat) returns (idx: int)
      requires Valid()
      modifies this
      ensures var r := ReadItem(old(Rest()), depth, old(Defs()), isTime);
              if r.Fail? then idx < 0 else Landed(old(doc), old(pos), r, idx)
      decreases |doc.data| - pos, 0
    {
      hide ReadHead, ReadArray, ReadMap, ReadStructure, ReadString, ReadSimple, TagMeaning, NodeOk, WF, Grows;
      ghost var ar1, p1 := doc, pos;
      var h := Head();
      if h.NoHead? {
        return -1;
      }
      if h.major <= 1 {
        idx := IntegerItem(h, ar1, p1);
      } else if h.major <= 3 {
        idx := StringItem(h, ar1, p1);
      } else if h.major == 7 {
        idx := SimpleItem(h, ar1, p1);
      } else if depth >= MAX_DEPTH {
        return -1;
      } else if h.major == 4 {
        idx := ArrayItem(h, depth, ar1, p1);
      } else if h.major == 5 {
        idx := MapItem(h, depth, ar1, p1);
      } else if h.indef {
        return -1;
      } else {
        idx := TagItem(h.val, depth, ar1, p1);
      }
    }

    method IntegerItem(h: HeadRead, ghost ar1: Arena, ghost p1: nat) returns (idx: int)
      requires Valid() && h.Head? && h.major <= 1 && h.val < TWO64 && doc == ar1 && p1 < pos && Rest() == h.rest
      modifies this`doc
      ensures h.indef ==> idx < 0
      ensures !h.indef ==> Landed(ar1, p1, Done(Int(if h.major == 0 then h.val else -1 - h.val), h.rest, old(Defs())),
                                  idx)
    {
      hide View, NodeOk;
      if h.indef {
        return -1;
      }
      var n := if h.major == 0 then Leaf(if h.val > TWO63 - 1 then ItUint else ItInt, h.val)
               else if h.val > TWO63 - 1 then Leaf(ItNegBig, h.val) else Leaf(ItInt, OfInt64(-1 - h.val));
      idx := FinishLeaf(n, ar1, p1, Done(LeafItem(n), h.rest, Defs()));
    }

    method SimpleItem(h: HeadRead, ghost ar1: Arena, ghost p1: nat) returns (idx: int)
      requires Valid() && h.Head? && doc == ar1 && p1 < pos && Rest() == h.rest
      modifies this`doc
      ensures var r := ReadSimple(h, old(Defs())); if r.Fail? then idx < 0 else Landed(ar1, p1, r, idx)
    {
      hide View, NodeOk;
      if h.indef || h.ai < 20 || h.ai == 24 || h.ai > 27 {
        return -1;
      }
      var n := if h.ai == 20 then Leaf(ItFalse, 0)
               else if h.ai == 21 then Leaf(ItTrue, 0)
               else if h.ai <= 23 then Leaf(ItNull, 0)
               else Node(ItFloat, false, 0, if h.ai == 25 then 2 else if h.ai == 26 then 4 else 8, h.val);
      idx := FinishLeaf(n, ar1, p1, Done(LeafItem(n), h.rest, Defs()));
    }

    /** stringItem: a slice of the data, or the chunks of an indefinite-length string joined in the blob list. */
    method StringItem(h: HeadRead, ghost ar1: Arena, ghost p1: nat) returns (idx: int)
      requires Valid() && h.Head? && 2 <= h.major <= 3 && doc == ar1 && p1 < pos && Rest() == h.rest
      modifies this
      ensures var r := ReadString(h, old(Defs())); if r.Fail? then idx < 0 else Landed(ar1, p1, r, idx)
    {
      hide ValidUtf8, ReadHead, ReadChunks, View, NodeOk, WF, Grows;
      var kind := if h.major == 3 then ItText else ItBytes;
      if !h.indef {
        if h.val > |doc.data| - pos {
          return -1;
        }
        var off := pos;
        pos := pos + h.val;
        assert doc.data[off..pos] == h.rest[..h.val] && doc.data[pos..] == h.rest[h.val..];
        if kind == ItText && !ValidUtf8(doc.data[off..pos]) {
          return -1;
        }
        GrowsSelf(doc);
        idx := FinishString(Node(kind, false, off, h.val, 0), ar1, p1);
        return;
      }
      var ok, assembled := Chunks(h, Defs());
      if !ok {
        return -1;
      }
      var doc2 := doc.(blobs := doc.blobs + [assembled]);
      AddSide(doc, doc2);
      GrowsTable(doc, doc2, structs);
      doc := doc2;
      idx := FinishString(Node(kind, true, |doc.blobs| - 1, |assembled|, 0), ar1, p1);
    }

    /** Ends an item that is a string held by the data or the blob list. */
    method FinishString(n: Node, ghost ar1: Arena, ghost p1: nat) returns (idx: int)
      requires Valid() && WF(ar1) && IsString(n) && Progress(ar1, p1 + 1, doc, pos)
      requires Held(doc, n)
      modifies this`doc
      ensures Landed(ar1, p1, Done(StringItemOf(n.kind, Str(old(doc), n)), old(Rest()), old(Defs())), idx)
    {
      hide Grows, Fresh;
      idx := Finish(n, ar1, p1);
    }

    method Chunks(h: HeadRead, ghost table: Table) returns (ok: bool, assembled: seq<byte>)
      requires pos <= |doc.data| && h.Head? && Rest() == h.rest
      modifies this`pos
      ensures old(pos) <= pos <= |doc.data|
      ensures var r := ReadChunks(h.rest, h.major, table); if ok then r == Done(assembled, Rest(), table) else r.Fail?
    {
      hide ReadHead, ValidUtf8, ReadChunks, OnTheWay;
      ghost var whole := ReadChunks(h.rest, h.major, table);
      assembled := [];
      assert OnTheWay(whole, [], whole) by { OnTheWayStart(whole); }
      while true
        invariant old(pos) <= pos <= |doc.data|
        invariant OnTheWay(whole, assembled, ReadChunks(Rest(), h.major, table))
        decreases |doc.data| - pos
      {
        ChunkStep(whole, assembled, Rest(), h.major, table);
        if |doc.data| - pos < 1 {
          return false, [];
        }
        if doc.data[pos] == BREAK {
          pos := pos + 1;
          return true, assembled;
        }
        var c := Head();
        if c.NoHead? || c.major != h.major || c.indef || c.val > |doc.data| - pos {
          return false, [];
        }
        var chunk := doc.data[pos..pos + c.val];
        assert chunk == c.rest[..c.val];
        pos := pos + c.val;
        assert Rest() == c.rest[c.val..];
        if h.major == 3 && !ValidUtf8(chunk) {
          return false, [];
        }
        assembled := assembled + chunk;
      }
    }

    /**
     arrayItem: a definite array reserves its slots and fills them as its elements land, an indefinite one collects
     them.
     */
    method ArrayItem(h: HeadRead, depth: nat, ghost ar1: Arena, ghost p1: nat) returns (idx: int)
      requires Valid() && h.Head? && doc == ar1 && p1 < pos && Rest() == h.rest
      modifies this
      ensures var r := ReadArray(h, depth, old(Defs()), isTime); if r.Fail? then idx < 0 else Landed(ar1, p1, r, idx)
      decreases |doc.data| - pos, 4
    {
      hide View, NodeOk, WF, Grows, ReadItems;
      if h.indef {
        var ok, elems := Elements(depth + 1);
        if !ok {
          return -1;
        }
        idx := FinishArray(elems, ar1, p1);
        return;
      }
      if h.val > |doc.data| - pos {
        return -1;
      }
      idx := DefiniteArray(h.val, depth + 1, ar1, p1);
    }

    /** The elements of an indefinite array, up to its break. */
    method Elements(depth: nat) returns (ok: bool, elems: seq<nat>)
      requires Valid()
      modifies this
      ensures var r := ReadItems(old(Rest()), ToBreak, depth, old(Defs()), isTime);
              if !ok then r.Fail?
              else At(r) && InBounds(doc, elems) && Views(doc, elems) == r.value
                   && Progress(old(doc), old(pos), doc, pos)
      decreases |doc.data| - pos, 1
    {
      hide View, NodeOk, WF, Grows, Fresh, ReadItem, ReadItems, OnTheWay;
      ghost var ar0, p0 := doc, pos;
      ghost var whole := ReadItems(Rest(), ToBreak, depth, Defs(), isTime);
      elems := [];
      OnTheWayStart(whole);
      ProgressSelf(doc, pos);
      assert Views(doc, elems) == [];
      while true
        invariant Valid() && Progress(ar0, p0, doc, pos) && doc.data == ar0.data
        invariant InBounds(doc, elems)
        invariant OnTheWay(whole, Views(doc, elems), ReadItems(Rest(), ToBreak, depth, Defs(), isTime))
        decreases |doc.data| - pos
      {
        ItemsWay(whole, Views(doc, elems), Rest(), ToBreak, depth, Defs(), isTime);
        if |doc.data| - pos < 1 {
          return false, [];
        }
        if doc.data[pos] == BREAK {
          pos := pos + 1;
          return true, elems;
        }
        ghost var mid, pm := doc, pos;
        var e := Item(depth);
        if e < 0 {
          return false, [];
        }
        GrowsLists(mid, doc, elems);
        ProgressTrans(ar0, p0, mid, pm, doc, pos);
        ViewsSnoc(doc, elems, e);
        elems := elems + [e];
      }
    }

    /** Ends an array whose elements were collected. */
    method FinishArray(elems: seq<nat>, ghost ar1: Arena, ghost p1: nat) returns (idx: int)
      requires Valid() && WF(ar1) && InBounds(doc, elems) && Progress(ar1, p1 + 1, doc, pos)
      modifies this`doc
      ensures Landed(ar1, p1, Done(Arr(Views(old(doc), elems)), old(Rest()), old(Defs())), idx)
    {
      hide View, WF, Grows, Views;
      var start := |doc.kids|;
      var doc2 := doc.(kids := doc.kids + elems);
      AddSide(doc, doc2);
      GrowsTable(doc, doc2, structs);
      GrowsLists(doc, doc2, elems);
      GrowsTrans(ar1, doc, doc2);
      doc := doc2;
      idx := FinishContainer(Node(ItArray, false, start, |elems|, 0), elems, ar1, p1);
      ArrayView(doc, idx);
    }

    /** Ends a container whose children are in their slots. */
    method FinishContainer(n: Node, ghost elems: seq<nat>, ghost ar1: Arena, ghost p1: nat) returns (idx: int)
      requires Valid() && WF(ar1) && Progress(ar1, p1 + 1, doc, pos)
      requires (n.kind.ItArray? && Slots(n) == |elems| && InBounds(doc, elems))
               || (n.kind.ItMap? && Slots(n) == |elems| && ArePairs(doc, elems))
      requires |ar1.kids| <= n.a && n.a + |elems| <= |doc.kids| && doc.kids[n.a..n.a + |elems|] == elems
      modifies this`doc
      ensures Valid() && 0 <= idx == |doc.nodes| - 1 && doc.nodes[idx] == n && doc.kids == old(doc).kids
      ensures Rest() == old(Rest()) && Defs() == old(Defs()) && Progress(ar1, p1, doc, pos)
      ensures Grows(old(doc), doc)
      ensures InBounds(doc, elems) && Views(doc, elems) == Views(old(doc), elems)
      ensures n.kind.ItMap? ==> ArePairs(doc, elems) && PairsOf(doc, elems) == PairsOf(old(doc), elems)
    {
      hide View, WF, Grows, Views, PairsOf;
      forall j | 0 <= j < Slots(n) ensures doc.kids[Slot(n, j)] < |doc.nodes| {
        assert doc.kids[Slot(n, j)] == elems[j];
      }
      if n.kind.ItMap? {
        forall j | 0 <= j < n.b ensures doc.nodes[doc.kids[Slot(n, 2 * j)]].kind.ItText? {
          assert doc.kids[Slot(n, 2 * j)] == elems[2 * j];
        }
      }
      ghost var before := doc;
      idx := Finish(n, ar1, p1);
      GrowsLists(before, doc, elems);
      if n.kind.ItMap? {
        GrowsPairs(before, doc, elems);
      }
    }

    method DefiniteArray(n: nat, depth: nat, ghost ar1: Arena, ghost p1: nat) returns (idx: int)
      requires Valid() && doc == ar1 && p1 < pos
      modifies this
      ensures var r := ReadItems(old(Rest()), Count(n), depth, old(Defs()), isTime);
              if r.Fail? then idx < 0 else Landed(ar1, p1, Done(Arr(r.value), r.rest, r.table), idx)
      decreases |doc.data| - pos, 3
    {
      hide View, NodeOk, WF, Grows, ReadItem, ReadItems, Views;
      var start := |doc.kids|;
      Reserve(n);
      ghost var p0 := pos;
      ghost var done;
      var ok;
      ok, done := FillArray(start, n, depth, ar1);
      if !ok {
        return -1;
      }
      idx := FinishContainer(Node(ItArray, false, start, n, 0), done, ar1, p1);
      ArrayView(doc, idx);
    }

    /** Reads n elements into the slots reserved for them. */
    method FillArray(start: nat, n: nat, depth: nat, ghost ar1: Arena) returns (ok: bool, ghost done: seq<nat>)
      requires Filling(ar1, pos, start, start + n)
      modifies this
      ensures var r := ReadItems(old(Rest()), Count(n), depth, old(Defs()), isTime);
              if !ok then r.Fail?
              else
                && Filling(ar1, old(pos), start, start + n) && At(r)
                && |done| == n && Filled(start, done) && Views(doc, done) == r.value
      decreases |doc.data| - pos, 2
    {
      hide View, NodeOk, WF, Grows, Fresh, ReadItem, ReadItems, OnTheWay, Views;
      ghost var whole := ReadItems(Rest(), Count(n), depth, Defs(), isTime);
      OnTheWayStart(whole);
      ghost var p0 := pos;
      var i := 0;
      done := [];
      assert Views(doc, done) == [];
      while i < n
        invariant 0 <= i <= n && Filling(ar1, p0, start, start + n)
        invariant |done| == i && Filled(start, done)
        invariant OnTheWay(whole, Views(doc, done), ReadItems(Rest(), Count(n - i), depth, Defs(), isTime))
      {
        ItemsWay(whole, Views(doc, done), Rest(), Count(n - i), depth, Defs(), isTime);
        var e := Child(start + i, done, depth, ar1, p0, start + n);
        if e < 0 {
          return false, [];
        }
        done := done + [e];
        i := i + 1;
      }
      ItemsWay(whole, Views(doc, done), Rest(), Count(0), depth, Defs(), isTime);
      ok := true;
    }

    /** The slots from start on hold these nodes. */
    ghost predicate Filled(start: nat, done: seq<nat>)
      reads this
    {
      start + |done| <= |doc.kids| && doc.kids[start..start + |done|] == done && InBounds(doc, done)
    }

    /** Reads a child and puts it in the next slot, after those done. */
    method Child(k: nat, ghost done: seq<nat>, depth: nat, ghost ar1: Arena, ghost p0: nat, ghost hi: nat)
    returns (e: int)
      requires Filling(ar1, p0, |ar1.kids|, hi) && |ar1.kids| + |done| == k < hi && Filled(|ar1.kids|, done)
      modifies this
      ensures var r := ReadItem(old(Rest()), depth, old(Defs()), isTime);
              if r.Fail? then e < 0
              else
                && 0 <= e < |doc.nodes| && Filling(ar1, p0, |ar1.kids|, hi) && At(r)
                && doc.data == old(doc).data && old(pos) < pos
                && Filled(|ar1.kids|, done + [e]) && Views(doc, done + [e]) == Views(old(doc), done) + [r.value]
      decreases |doc.data| - pos, 1
    {
      hide View, WF, Grows, Fresh, ReadItem, Views;
      ghost var mid, pm := doc, pos;
      e := Item(depth);
      if e >= 0 {
        ghost var landed := doc;
        GrowsLists(mid, landed, done);
        ViewsSnoc(landed, done, e);
        Fill(k, e, ar1, p0, mid, pm, hi);
        GrowsLists(landed, doc, done + [e]);
      }
    }

    /** Extends the child list with slots to be filled. */
    method Reserve(n: nat)
      requires Valid()
      modifies this`doc
      ensures Valid() && Defs() == old(Defs()) && Filling(old(doc), pos, |old(doc).kids|, |old(doc).kids| + n)
    {
      hide WF, Grows;
      var doc2 := doc.(kids := doc.kids + seq(n, _ => 0));
      AddSide(doc, doc2);
      GrowsTable(doc, doc2, structs);
      doc := doc2;
    }

    /** Puts the child that has just landed in its slot. */
    method Fill(k: nat, e: nat, ghost ar1: Arena, ghost p1: nat, ghost mid: Arena, ghost pm: nat, ghost hi: nat)
      requires Valid() && WF(ar1) && Progress(ar1, p1, mid, pm) && Progress(mid, pm, doc, pos)
      requires Fresh(mid, |ar1.nodes|, hi) && |ar1.kids| <= k < hi <= |mid.kids|
      modifies this`doc
      ensures Filling(ar1, p1, |ar1.kids|, hi) && Defs() == old(Defs()) && Grows(old(doc), doc)
      ensures doc == old(doc).(kids := old(doc).kids[k := e])
    {
      hide WF, Grows, Fresh;
      FillStep(ar1, p1, mid, pm, doc, pos, hi, k, e);
      GrowsTable(doc, doc.(kids := doc.kids[k := e]), structs);
      doc := doc.(kids := doc.kids[k := e]);
    }

    /** A container begun on ar1 owns the slots from lo to hi, and nothing finished since owns any of them. */
    ghost predicate Filling(ar1: Arena, p1: nat, lo: nat, hi: nat)
      reads this
    {
      && Valid() && WF(ar1) && Progress(ar1, p1, doc, pos)
      && |ar1.kids| == lo <= hi <= |doc.kids| && Fresh(doc, |ar1.nodes|, hi)
    }

    /** mapItem: like an array, of keys and values that alternate; the keys are text, all different. */
    method MapItem(h: HeadRead, depth: nat, ghost ar1: Arena, ghost p1: nat) returns (idx: int)
      requires Valid() && h.Head? && doc == ar1 && p1 < pos && Rest() == h.rest
      modifies this
      ensures var r := ReadMap(h, depth, old(Defs()), isTime); if r.Fail? then idx < 0 else Landed(ar1, p1, r, idx)
      decreases |doc.data| - pos, 5
    {
      hide View, NodeOk, WF, Grows, ReadPairs, PairsOf;
      if !h.indef && h.val > (|doc.data| - pos) / 2 {
        return -1;
      }
      ghost var done;
      var ok, start, count;
      ok, start, count, done := MapPairs(h, depth + 1, ar1, p1);
      if !ok {
        return -1;
      }
      ok := DistinctKeys(start, count, done);
      if !ok {
        return -1;
      }
      idx := FinishContainer(Node(ItMap, false, start, count, 0), done, ar1, p1);
      MapView(doc, idx);
    }

    /** The pairs of a map, in their slots: `count` of them from `start` on. */
    method MapPairs(h: HeadRead, depth: nat, ghost ar1: Arena, ghost p1: nat)
      returns (ok: bool, start: nat, count: nat, ghost done: seq<nat>)
      requires Valid() && h.Head? && doc == ar1 && p1 < pos
      modifies this
      ensures var r := ReadPairs(old(Rest()), if h.indef then ToBreak else Count(h.val), depth, old(Defs()), isTime);
              if !ok then r.Fail?
              else
                && At(r) && Progress(ar1, p1 + 1, doc, pos) && |ar1.kids| <= start
                && |done| == 2 * count && Filled(start, done) && ArePairs(doc, done) && PairsOf(doc, done) == r.value
      decreases |doc.data| - pos, 4
    {
      hide View, NodeOk, WF, Grows, ReadPairs, PairsOf;
      start, count, done := |doc.kids|, h.val, [];
      if h.indef {
        var elems;
        ok, elems := CollectPairs(depth);
        if ok {
          start := |doc.kids|;
          AppendKids(elems, ar1, p1);
          count, done := |elems| / 2, elems;
        }
      } else {
        Reserve(2 * h.val);
        ok, done := FillPairs(start, h.val, depth, ar1);
      }
    }

    /** Appends the collected children of an indefinite container. */
    method AppendKids(elems: seq<nat>, ghost ar1: Arena, ghost p1: nat)
      requires Valid() && WF(ar1) && ArePairs(doc, elems) && Progress(ar1, p1 + 1, doc, pos)
      modifies this`doc
      ensures Valid() && Rest() == old(Rest()) && Defs() == old(Defs()) && Progress(ar1, p1 + 1, doc, pos)
      ensures ArePairs(doc, elems) && PairsOf(doc, elems) == PairsOf(old(doc), elems) && Filled(|old(doc).kids|, elems)
    {
      hide View, WF, Grows, PairsOf;
      var doc2 := doc.(kids := doc.kids + elems);
      AddSide(doc, doc2);
      GrowsTable(doc, doc2, structs);
      GrowsPairs(doc, doc2, elems);
      GrowsTrans(ar1, doc, doc2);
      doc := doc2;
    }

    /** Reads a key, which must be text, and its value. */
    method PairItem(depth: nat) returns (k: int, v: int)
      requires Valid()
      modifies this
      ensures var r := ReadPair(old(Rest()), depth, old(Defs()), isTime);
              if r.Fail? then k < 0
              else
                && At(r) && Progress(old(doc), old(pos), doc, pos) && old(pos) < pos
                && 0 <= k < |doc.nodes| && 0 <= v < |doc.nodes| && doc.nodes[k].kind.ItText?
                && r.value == (NameOf(doc, k), View(doc, v))
      decreases |doc.data| - pos, 1
    {
      hide WF, Grows, Fresh, ReadItem, View;
      ghost var ar0, p0 := doc, pos;
      v := -1;
      k := Item(depth);
      if k < 0 {
        return;
      }
      NameView(doc, k);
      if !doc.nodes[k].kind.ItText? {
        return -1, -1;
      }
      ghost var mid, pm := doc, pos;
      v := Item(depth);
      if v < 0 {
        return -1, -1;
      }
      GrowsView(mid, doc, k);
      NameView(doc, k);
      ProgressTrans(ar0, p0, mid, pm, doc, pos);
    }

    /** The pairs of an indefinite map, up to its break. */
    method CollectPairs(depth: nat) returns (ok: bool, elems: seq<nat>)
      requires Valid()
      modifies this
      ensures var r := ReadPairs(old(Rest()), ToBreak, depth, old(Defs()), isTime);
              if !ok then r.Fail?
              else At(r) && ArePairs(doc, elems) && PairsOf(doc, elems) == r.value
                   && Progress(old(doc), old(pos), doc, pos)
      decreases |doc.data| - pos, 2
    {
      hide View, NodeOk, WF, Grows, Fresh, ReadPair, ReadPairs, OnTheWay, PairsOf, NameOf;
      ghost var ar0, p0 := doc, pos;
      ghost var whole := ReadPairs(Rest(), ToBreak, depth, Defs(), isTime);
      elems := [];
      OnTheWayStart(whole);
      ProgressSelf(doc, pos);
      assert PairsOf(doc, elems) == [];
      while true
        invariant Valid() && Progress(ar0, p0, doc, pos)
        invariant ArePairs(doc, elems)
        invariant OnTheWay(whole, PairsOf(doc, elems), ReadPairs(Rest(), ToBreak, depth, Defs(), isTime))
        decreases |doc.data| - pos
      {
        PairsWay(whole, PairsOf(doc, elems), Rest(), ToBreak, depth, Defs(), isTime);
        if |doc.data| - pos < 1 {
          return false, [];
        }
        if doc.data[pos] == BREAK {
          pos := pos + 1;
          return true, elems;
        }
        ghost var mid, pm := doc, pos;
        var k, v := PairItem(depth);
        if k < 0 {
          return false, [];
        }
        GrowsPairs(mid, doc, elems);
        PairsSnoc(doc, elems, k, v);
        ProgressTrans(ar0, p0, mid, pm, doc, pos);
        elems := elems + [k, v];
      }
    }

    /** Reads n pairs into the slots reserved for them. */
    method FillPairs(start: nat, n: nat, depth: nat, ghost ar1: Arena) returns (ok: bool, ghost done: seq<nat>)
      requires Filling(ar1, pos, start, start + 2 * n)
      modifies this
      ensures var r := ReadPairs(old(Rest()), Count(n), depth, old(Defs()), isTime);
              if !ok then r.Fail?
              else
                && Filling(ar1, old(pos), start, start + 2 * n) && At(r)
                && |done| == 2 * n && Filled(start, done) && ArePairs(doc, done) && PairsOf(doc, done) == r.value
      decreases |doc.data| - pos, 3
    {
      hide View, NodeOk, WF, Grows, Fresh, ReadPair, ReadPairs, OnTheWay, PairsOf;
      ghost var whole := ReadPairs(Rest(), Count(n), depth, Defs(), isTime);
      OnTheWayStart(whole);
      ghost var p0 := pos;
      var count := 0;
      done := [];
      assert PairsOf(doc, done) == [];
      while count < n
        invariant 0 <= count <= n && Filling(ar1, p0, start, start + 2 * n)
        invariant |done| == 2 * count && Filled(start, done) && ArePairs(doc, done)
        invariant OnTheWay(whole, PairsOf(doc, done), ReadPairs(Rest(), Count(n - count), depth, Defs(), isTime))
      {
        PairsWay(whole, PairsOf(doc, done), Rest(), Count(n - count), depth, Defs(), isTime);
        var k, v := ChildPair(start + 2 * count, done, depth, ar1, p0, start + 2 * n);
        if k < 0 {
          return false, [];
        }
        done := done + [k, v];
        count := count + 1;
      }
      PairsWay(whole, PairsOf(doc, done), Rest(), Count(0), depth, Defs(), isTime);
      ok := true;
    }

    /** Reads a pair and puts it in the next two slots, after those done. */
    method ChildPair(at: nat, ghost done: seq<nat>, depth: nat, ghost ar1: Arena, ghost p0: nat, ghost hi: nat)
    returns (k: int, v: int)
      requires Filling(ar1, p0, |ar1.kids|, hi) && |ar1.kids| + |done| == at && at + 1 < hi
      requires Filled(|ar1.kids|, done) && ArePairs(doc, done)
      modifies this
      ensures var r := ReadPair(old(Rest()), depth, old(Defs()), isTime);
              if r.Fail? then k < 0
              else
                && 0 <= k && 0 <= v && Filling(ar1, p0, |ar1.kids|, hi) && At(r)
                && doc.data == old(doc).data && old(pos) < pos
                && Filled(|ar1.kids|, done + [k, v]) && ArePairs(doc, done + [k, v])
                && PairsOf(doc, done + [k, v]) == PairsOf(old(doc), done) + [r.value]
      decreases |doc.data| - pos, 2
    {
      hide View, WF, Grows, Fresh, ReadPair, PairsOf, NameOf;
      ghost var mid, pm := doc, pos;
      k, v := PairItem(depth);
      if k >= 0 {
        ghost var landed := doc;
        GrowsPairs(mid, landed, done);
        PairsSnoc(landed, done, k, v);
        Fill(at, k, ar1, p0, mid, pm, hi);
        ghost var half := doc;
        ProgressSelf(half, pos);
        Fill(at + 1, v, ar1, p0, half, pos, hi);
        GrowsPairs(landed, half, done + [k, v]);
        GrowsPairs(half, doc, done + [k, v]);
      }
    }

    /** checkDistinctKeys: pair by pair for a short map, through a set for a long one. */
    method DistinctKeys(start: nat, pairs: nat, ghost done: seq<nat>) returns (ok: bool)
      requires Valid() && |done| == 2 * pairs && Filled(start, done) && ArePairs(doc, done)
      ensures ok == Distinct(Keys(PairsOf(doc, done)))
    {
      if pairs <= 8 {
        ok := DistinctPairwise(start, pairs, done);
      } else {
        ok := DistinctBySet(start, pairs, done);
      }
    }

    method DistinctPairwise(start: nat, pairs: nat, ghost done: seq<nat>) returns (ok: bool)
      requires Valid() && |done| == 2 * pairs && Filled(start, done) && ArePairs(doc, done)
      ensures ok == Distinct(Keys(PairsOf(doc, done)))
    {
      hide View, WF, NameOf;
      ghost var keys := Keys(PairsOf(doc, done));
      for i := 0 to pairs
        invariant forall a, b :: 0 <= a < b < i ==> keys[a] != keys[b]
      {
        var key := KeyAt(start, i, done);
        for j := 0 to i
          invariant forall a :: 0 <= a < j ==> keys[a] != keys[i]
        {
          var other := KeyAt(start, j, done);
          if key == other {
            return false;
          }
        }
      }
      return true;
    }

    method DistinctBySet(start: nat, pairs: nat, ghost done: seq<nat>) returns (ok: bool)
      requires Valid() && |done| == 2 * pairs && Filled(start, done) && ArePairs(doc, done)
      ensures ok == Distinct(Keys(PairsOf(doc, done)))
    {
      hide View, WF, NameOf;
      ghost var keys := Keys(PairsOf(doc, done));
      var seen: set<seq<byte>> := {};
      for i := 0 to pairs
        invariant forall a, b :: 0 <= a < b < i ==> keys[a] != keys[b]
        invariant forall a :: 0 <= a < i ==> keys[a] in seen
        invariant forall s :: s in seen ==> exists a :: 0 <= a < i && keys[a] == s
      {
        var key := KeyAt(start, i, done);
        if key in seen {
          return false;
        }
        seen := seen + {key};
      }
      return true;
    }

    /** The text of the key of pair i. */
    method KeyAt(start: nat, i: nat, ghost done: seq<nat>) returns (s: seq<byte>)
      requires Valid() && Filled(start, done) && ArePairs(doc, done) && i < |done| / 2
      ensures s == Keys(PairsOf(doc, done))[i]
    {
      hide View, WF;
      assert doc.kids[start + 2 * i] == done[2 * i];
      var n := doc.nodes[doc.kids[start + 2 * i]];
      assert NodeOk(doc, n, done[2 * i]) by { NodeOkAt(doc, done[2 * i]); }
      return Str(doc, n);
    }

    // ---- tags ------------------------------------------------------------------------------

    /** tagItem: a structure, or the content of the tag and the meaning the tag gives it. */
    method TagItem(tag: nat, depth: nat, ghost ar1: Arena, ghost p1: nat) returns (idx: int)
      requires Valid() && doc == ar1 && p1 < pos
      modifies this
      ensures var r := ReadTagged(tag, old(Rest()), depth, old(Defs()), isTime);
              if r.Fail? then idx < 0 else Landed(ar1, p1, r, idx)
      decreases |doc.data| - pos, 6
    {
      hide View, NodeOk, WF, Grows, Fresh, ReadItem, ReadStructure, TagMeaning;
      if tag == TAG_STRUCTURE_DEF || STRUCTURE_TAG_BASE <= tag < STRUCTURE_TAG_BASE + MAX_STRUCTURES {
        idx := StructureItem(tag, depth, ar1, p1);
        return;
      }
      ghost var mid, pm := doc, pos;
      var c := Item(depth + 1);
      if c < 0 {
        return -1;
      }
      idx := Interpret(tag, c, ar1, p1);
    }

    /** What a tag makes of the content that has just been read. */
    method Interpret(tag: nat, c: nat, ghost ar1: Arena, ghost p1: nat) returns (idx: int)
      requires Valid() && WF(ar1) && c < |doc.nodes| && Progress(ar1, p1 + 1, doc, pos)
      modifies this`doc
      ensures var m := TagMeaning(tag, old(View(doc, c)), isTime);
              if m.Refused? then idx < 0 else Landed(ar1, p1, Done(m.item, old(Rest()), old(Defs())), idx)
    {
      hide View, NodeOk, WF, Grows, Fresh;
      var content := doc.nodes[c];
      KindView(doc, c);
      if tag <= 1 {
        idx := Instant(tag, c, ar1, p1);
      } else if tag <= 3 && content.kind.ItBytes? {
        idx := Bignum(tag, content, ar1, p1);
      } else if tag == 4 {
        idx := Decimal(c, ar1, p1);
      } else if tag == 37 && content.kind.ItBytes? && content.b == 16 {
        idx := FinishString(content.(kind := ItUuid), ar1, p1);
      } else if tag == 100 && content.kind.ItInt? {
        idx := FinishLeaf(Leaf(ItDate, content.extra), ar1, p1, Done(Date(ToInt64(content.extra)), Rest(), Defs()));
      } else {
        idx := FinishLeaf(Leaf(ItBadTag, tag), ar1, p1, Done(BadTag(tag), Rest(), Defs()));
      }
    }

    /** Tags 0 and 1: a date and time in text, or in seconds. */
    method Instant(tag: nat, c: nat, ghost ar1: Arena, ghost p1: nat) returns (idx: int)
      requires Valid() && WF(ar1) && tag <= 1 && c < |doc.nodes| && Progress(ar1, p1 + 1, doc, pos)
      modifies this`doc
      ensures var m := TagMeaning(tag, old(View(doc, c)), isTime);
              if m.Refused? then idx < 0 else Landed(ar1, p1, Done(m.item, old(Rest()), old(Defs())), idx)
    {
      hide View, NodeOk, WF, Grows, Fresh, EpochFloat;
      var content := doc.nodes[c];
      KindView(doc, c);
      if tag == 0 && content.kind.ItText? {
        if !isTime(Str(doc, content)) {
          return -1;
        }
        idx := FinishInstant(TimeText(Str(doc, content)), ar1, p1);
      } else if tag == 1 && content.kind.ItInt? {
        idx := FinishInstant(TimeEpoch(ToInt64(content.extra)), ar1, p1);
      } else if tag == 1 && content.kind.ItUint? {
        return -1;
      } else if tag == 1 && content.kind.ItFloat? {
        if !EpochFloat(content.b, content.extra) {
          return -1;
        }
        idx := FinishInstant(TimeFloat(content.b, content.extra), ar1, p1);
      } else {
        idx := FinishLeaf(Leaf(ItBadTag, tag), ar1, p1, Done(BadTag(tag), Rest(), Defs()));
      }
    }

    method Bignum(tag: nat, content: Node, ghost ar1: Arena, ghost p1: nat) returns (idx: int)
      requires Valid() && WF(ar1) && 2 <= tag <= 3 && content.kind.ItBytes? && Progress(ar1, p1 + 1, doc, pos)
      requires Held(doc, content)
      modifies this`doc
      ensures var n := FromBE(Str(old(doc), content));
              Landed(ar1, p1, Done(Big(if tag == 2 then n else -1 - n), old(Rest()), old(Defs())), idx)
    {
      hide View, NodeOk, WF, Grows, Fresh, FromBE, IntText;
      var n: int := FromBE(Str(doc, content));
      if tag == 3 {
        n := -(n + 1);
      }
      idx := FinishNumText(IntText(n), n, 0, 0, ar1, p1);
    }

    /** A decimal fraction: an array of a 64-bit exponent and an integer mantissa, kept as the mantissa's digits. */
    method Decimal(c: nat, ghost ar1: Arena, ghost p1: nat) returns (idx: int)
      requires Valid() && WF(ar1) && c < |doc.nodes| && Progress(ar1, p1 + 1, doc, pos)
      modifies this`doc
      ensures var m := TagMeaning(4, old(View(doc, c)), isTime);
              m.Means? && Landed(ar1, p1, Done(m.item, old(Rest()), old(Defs())), idx)
    {
      hide View, WF, Grows, Fresh, IntText, IntegerText, NodeOk;
      var content := doc.nodes[c];
      KindView(doc, c);
      if content.kind.ItArray? && content.b == 2 {
        TwoItems(doc, c);
        var e, m := doc.kids[content.a], doc.kids[content.a + 1];
        KindView(doc, e);
        TextAt(doc, m);
        IntegerTextView(doc, m);
        var text := IntegerText(doc, doc.nodes[m]);
        if doc.nodes[e].kind.ItInt? && text != [] {
          idx := FinishNumText(text, View(doc, m).n, 1, doc.nodes[e].extra, ar1, p1);
          return;
        }
      }
      idx := FinishLeaf(Leaf(ItBadTag, 4), ar1, p1, Done(BadTag(4), Rest(), Defs()));
    }

    /** addText, for a number kept as text. */
    method FinishNumText(text: seq<byte>, ghost n: int, b: nat, extra: nat, ghost ar1: Arena, ghost p1: nat)
    returns (idx: int)
      requires Valid() && WF(ar1) && Progress(ar1, p1 + 1, doc, pos) && text == IntText(n) && b <= 1
      modifies this`doc
      ensures Landed(ar1, p1, Done(if b == 0 then Big(n) else Dec(n, ToInt64(extra)), old(Rest()), old(Defs())), idx)
    {
      hide WF, Grows, IntText, IntVal;
      IntTextVal(n);
      assert IsIntText(IntText(n));
      var doc2 := doc.(strs := doc.strs + [text]);
      AddSide(doc, doc2);
      GrowsTable(doc, doc2, structs);
      GrowsTrans(ar1, doc, doc2);
      doc := doc2;
      idx := Finish(Node(ItNumText, false, |doc.strs| - 1, b, extra), ar1, p1);
    }

    /** addInstant. */
    method FinishInstant(t: Item, ghost ar1: Arena, ghost p1: nat) returns (idx: int)
      requires Valid() && WF(ar1) && Progress(ar1, p1 + 1, doc, pos) && IsInstant(t)
      modifies this`doc
      ensures Landed(ar1, p1, Done(t, old(Rest()), old(Defs())), idx)
    {
      hide WF, Grows;
      var doc2 := doc.(times := doc.times + [t]);
      AddSide(doc, doc2);
      GrowsTable(doc, doc2, structs);
      GrowsTrans(ar1, doc, doc2);
      doc := doc2;
      idx := Finish(Leaf(ItInstant, |doc.times| - 1), ar1, p1);
    }

    // ---- structures ------------------------------------------------------------------------

    /** structureItem: a definition or a reference, read as the map of its names and values. */
    method StructureItem(tag: nat, depth: nat, ghost ar1: Arena, ghost p1: nat) returns (idx: int)
      requires Valid() && doc == ar1 && p1 < pos && IsStructureTag(tag)
      modifies this
      ensures var r := ReadStructure(tag, old(Rest()), depth, old(Defs()), isTime);
              if r.Fail? then idx < 0 else Landed(ar1, p1, r, idx)
      decreases |doc.data| - pos, 5
    {
      hide View, NodeOk, WF, Grows, Fresh, ReadHead, ReadDefinition, ReadRecord, NamesOf;
      if depth + 1 >= MAX_DEPTH {
        return -1;
      }
      var h := Head();
      if h.NoHead? || h.major != 4 || h.indef || h.val > |doc.data| - pos {
        return -1;
      }
      ProgressSelf(doc, pos);
      var names;
      if tag == TAG_STRUCTURE_DEF {
        var ok;
        ok, names := Definition(h, depth);
        if !ok {
          return -1;
        }
      } else {
        var id := tag - STRUCTURE_TAG_BASE;
        if id !in structs {
          return -1;
        }
        names := structs[id];
        if h.val != |names| {
          return -1;
        }
      }
      idx := Record(names, depth, ar1, p1);
    }

    /** The id and the names of a definition, which the table then holds. */
    method Definition(h: HeadRead, depth: nat) returns (ok: bool, names: seq<nat>)
      requires Valid() && h.Head? && Rest() == h.rest
      modifies this
      ensures var r := ReadDefinition(h, depth, old(Defs()), isTime);
              if !ok then r.Fail?
              else At(r) && AreNames(doc, names) && NamesOf(doc, names) == r.value
                   && Progress(old(doc), old(pos), doc, pos)
      decreases |doc.data| - pos, 3
    {
      hide View, NodeOk, WF, Grows, Fresh, ReadHead, ReadItem, ReadNames, NamesOf;
      if h.val < 2 {
        return false, [];
      }
      ghost var ar0, p0 := doc, pos;
      var idNode := Item(depth + 2);
      if idNode < 0 {
        return false, [];
      }
      KindView(doc, idNode);
      var id := doc.nodes[idNode];
      if !id.kind.ItInt? || ToInt64(id.extra) < STRUCTURE_TAG_BASE
         || ToInt64(id.extra) >= STRUCTURE_TAG_BASE + MAX_STRUCTURES {
        return false, [];
      }
      ghost var mid, pm := doc, pos;
      ok, names := StructureNames(depth + 2);
      if !ok || h.val != |names| + 2 {
        return false, [];
      }
      structs := structs[ToInt64(id.extra) - STRUCTURE_TAG_BASE := names];
      ProgressTrans(ar0, p0, mid, pm, doc, pos);
    }

    /** structureNames: text strings, all different, in a definite-length array. */
    method StructureNames(depth: nat) returns (ok: bool, names: seq<nat>)
      requires Valid()
      modifies this
      ensures var nh := ReadHead(old(Rest()));
              if nh.NoHead? || nh.major != 4 || nh.indef || nh.val > |nh.rest| then !ok
              else
                var r := ReadNames(nh.rest, nh.val, depth + 1, old(Defs()), isTime);
                if r.Fail? || !Distinct(r.value) then !ok
                else ok && At(r) && AreNames(doc, names) && NamesOf(doc, names) == r.value
                     && Progress(old(doc), old(pos), doc, pos)
      decreases |doc.data| - pos, 2
    {
      hide View, NodeOk, WF, Grows, Fresh, ReadHead, ReadNames, NamesOf;
      ghost var ar0, p0 := doc, pos;
      var h := Head();
      if h.NoHead? || h.major != 4 || h.indef || h.val > |doc.data| - pos {
        return false, [];
      }
      ok, names := NameItems(h.val, depth + 1);
      if ok {
        ok := DistinctNames(names);
      }
    }

    method NameItems(n: nat, depth: nat) returns (ok: bool, names: seq<nat>)
      requires Valid()
      modifies this
      ensures var r := ReadNames(old(Rest()), n, depth, old(Defs()), isTime);
              if !ok then r.Fail?
              else At(r) && AreNames(doc, names) && NamesOf(doc, names) == r.value
                   && Progress(old(doc), old(pos), doc, pos)
      decreases |doc.data| - pos, 1
    {
      hide View, NodeOk, WF, Grows, Fresh, ReadItem, ReadNames, OnTheWay, NamesOf, NameOf;
      ghost var ar0, p0 := doc, pos;
      ghost var whole := ReadNames(Rest(), n, depth, Defs(), isTime);
      OnTheWayStart(whole);
      ProgressSelf(doc, pos);
      names := [];
      assert NamesOf(doc, names) == [];
      for i := 0 to n
        invariant Valid() && Progress(ar0, p0, doc, pos) && |names| == i && AreNames(doc, names)
        invariant OnTheWay(whole, NamesOf(doc, names), ReadNames(Rest(), n - i, depth, Defs(), isTime))
      {
        NamesWay(whole, NamesOf(doc, names), Rest(), n - i, depth, Defs(), isTime);
        ghost var mid, pm := doc, pos;
        var k := Item(depth);
        if k < 0 {
          return false, [];
        }
        NameView(doc, k);
        if !doc.nodes[k].kind.ItText? {
          return false, [];
        }
        GrowsLists(mid, doc, names);
        NamesSnoc(doc, names, k);
        ProgressTrans(ar0, p0, mid, pm, doc, pos);
        names := names + [k];
      }
      NamesWay(whole, NamesOf(doc, names), Rest(), 0, depth, Defs(), isTime);
      ok := true;
    }

    method DistinctNames(names: seq<nat>) returns (ok: bool)
      requires Valid() && AreNames(doc, names)
      ensures ok == Distinct(NamesOf(doc, names))
    {
      hide View, WF;
      ghost var ns := NamesOf(doc, names);
      var seen: set<seq<byte>> := {};
      for i := 0 to |names|
        invariant forall a, b :: 0 <= a < b < i ==> ns[a] != ns[b]
        invariant forall a :: 0 <= a < i ==> ns[a] in seen
        invariant forall s :: s in seen ==> exists a :: 0 <= a < i && ns[a] == s
      {
        NodeOkAt(doc, names[i]);
        var name := Str(doc, doc.nodes[names[i]]);
        assert name == ns[i];
        if name in seen {
          return false;
        }
        seen := seen + {name};
      }
      return true;
    }

    /** Reads the values of a record beside its names. */
    method Record(names: seq<nat>, depth: nat, ghost ar1: Arena, ghost p1: nat) returns (idx: int)
      requires Valid() && WF(ar1) && AreNames(doc, names) && Progress(ar1, p1 + 1, doc, pos)
      modifies this
      ensures var r := ReadRecord(NamesOf(old(doc), names), old(Rest()), depth, old(Defs()), isTime);
              if r.Fail? then idx < 0 else Landed(ar1, p1, r, idx)
      decreases |doc.data| - pos, 4
    {
      hide View, NodeOk, WF, Grows, Fresh, ReadItems, NamesOf, PairsOf;
      ghost var ar2, p2 := doc, pos;
      var start := |doc.kids|;
      Reserve(2 * |names|);
      var ok;
      ghost var done;
      ok, done := FillRecord(start, names, depth + 2, ar2);
      if !ok {
        return -1;
      }
      ProgressTrans(ar1, p1 + 1, ar2, p2, doc, pos);
      idx := FinishContainer(Node(ItMap, false, start, |names|, 0), done, ar1, p1);
      MapView(doc, idx);
    }

    /** Each value goes in the slot after the one its name is put in. */
    method FillRecord(start: nat, names: seq<nat>, depth: nat, ghost ar2: Arena)
    returns (ok: bool, ghost done: seq<nat>)
      requires Filling(ar2, pos, start, start + 2 * |names|) && AreNames(ar2, names)
      modifies this
      ensures var r := ReadItems(old(Rest()), Count(|names|), depth, old(Defs()), isTime);
              if !ok then r.Fail?
              else
                && Filling(ar2, old(pos), start, start + 2 * |names|) && At(r)
                && |done| == 2 * |names| && Filled(start, done) && ArePairs(doc, done)
                && PairsOf(doc, done) == Zip(NamesOf(ar2, names), r.value)
      decreases |doc.data| - pos, 3
    {
      hide View, NodeOk, WF, Grows, Fresh, ReadItem, ReadItems, OnTheWay, PairsOf, NamesOf, Zip;
      var n := |names|;
      ghost var whole := ReadItems(Rest(), Count(n), depth, Defs(), isTime);
      OnTheWayStart(whole);
      ghost var p0 := pos;
      ghost var all := NamesOf(ar2, names);
      ghost var values: seq<Item> := [];
      done := [];
      NoPairs(doc, all);
      for i := 0 to n
        invariant Filling(ar2, p0, start, start + 2 * n)
        invariant |done| == 2 * i && Filled(start, done) && ArePairs(doc, done)
        invariant |values| == i && PairsOf(doc, done) == Zip(all[..i], values)
        invariant OnTheWay(whole, values, ReadItems(Rest(), Count(n - i), depth, Defs(), isTime))
      {
        ItemsWay(whole, values, Rest(), Count(n - i), depth, Defs(), isTime);
        ghost var x := ReadItem(Rest(), depth, Defs(), isTime);
        var v := ChildValue(start + 2 * i, names[i], done, depth, ar2, p0, start + 2 * n);
        if v < 0 {
          return false, [];
        }
        ZipSnoc(all, i, values, x.value);
        done := done + [names[i], v];
        values := values + [x.value];
      }
      ItemsWay(whole, values, Rest(), Count(0), depth, Defs(), isTime);
      assert all[..n] == all;
      ok := true;
    }

    method ChildValue(at: nat, name: nat, ghost done: seq<nat>, depth: nat, ghost ar2: Arena, ghost p0: nat,
                      ghost hi: nat) returns (v: int)
      requires Filling(ar2, p0, |ar2.kids|, hi) && |ar2.kids| + |done| == at && at + 1 < hi
      requires Filled(|ar2.kids|, done) && ArePairs(doc, done) && name < |ar2.nodes| && ar2.nodes[name].kind.ItText?
      modifies this
      ensures var r := ReadItem(old(Rest()), depth, old(Defs()), isTime);
              if r.Fail? then v < 0
              else
                && 0 <= v && Filling(ar2, p0, |ar2.kids|, hi) && At(r)
                && doc.data == old(doc).data && old(pos) < pos
                && Filled(|ar2.kids|, done + [name, v]) && ArePairs(doc, done + [name, v])
                && PairsOf(doc, done + [name, v]) == PairsOf(old(doc), done) + [(NameOf(ar2, name), r.value)]
      decreases |doc.data| - pos, 2
    {
      hide View, WF, Grows, Fresh, ReadItem, PairsOf, NameOf;
      ghost var mid, pm := doc, pos;
      v := Item(depth);
      if v >= 0 {
        ghost var landed := doc;
        GrowsPairs(mid, landed, done);
        GrowsTrans(ar2, mid, landed);
        GrowsLists(ar2, landed, [name]);
        assert NamesOf(ar2, [name])[0] == NamesOf(landed, [name])[0];
        PairsSnoc(landed, done, name, v);
        Fill(at, name, ar2, p0, mid, pm, hi);
        ghost var half := doc;
        ProgressSelf(half, pos);
        Fill(at + 1, v, ar2, p0, half, pos, hi);
        GrowsPairs(landed, half, done + [name, v]);
        GrowsPairs(half, doc, done + [name, v]);
      }
    }
  }

  // ---- a whole document ----------------------------------------------------------------------

  /** NewCBORNode: the arena and the node of the one item of the data, or a refusal of the data. */
  method NewNode(data: seq<byte>, isTime: seq<byte> -> bool) returns (ok: bool, doc: Arena, root: nat)
    ensures var r := ReadDocument(data, isTime);
            if r.Fail? then !ok else ok && WF(doc) && root < |doc.nodes| <= |data| && View(doc, root) == r.value
  {
    hide View, NodeOk, ReadItem;
    var d := new Decoder(data, isTime);
    doc, root := d.doc, 0;
    assert d.Rest() == data && d.Defs() == map[];
    var idx := d.Item(0);
    if idx < 0 || d.pos != |data| {
      return false, doc, root;
    }
    return true, d.doc, idx;
  }
}
