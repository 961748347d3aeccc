/**
 The presence layout of pg/info_mask.go and the bits that record it (query/write_denormalize.go,
 query/write_temp.go): a slot for every column and composite sub-field, and the bit a write tests.
 */
module Presence {
  import opened Wrappers
  import opened MaskBits

  type RelId = nat

  /** A column; one whose type is composite has the columns of that relation as sub-fields. */
  datatype Column = Column(name: nat, composite: Option<RelId>)

  type Path = seq<Column>

  type Schema = map<RelId, seq<Column>>

  datatype Slot = Slot(path: Path, word: nat, bit: nat)

  datatype MaskNode = MaskNode(slot: nat, children: map<Column, MaskNode>)

  ghost predicate Distinct(cols: seq<Column>) {
    forall i, j :: 0 <= i < j < |cols| ==> cols[i] != cols[j]
  }

  ghost predicate SchemaOk(schema: Schema) {
    forall r :: r in schema ==> Distinct(schema[r])
  }

  /** A composite column is expanded unless its relation is being expanded already. */
  predicate Expands(schema: Schema, c: Column, seen: set<RelId>) {
    c.composite.Some? && c.composite.value in schema && c.composite.value !in seen
  }

  // ---- the layout --------------------------------------------------------------------------------------

  /** The paths in layout order: each column, then its sub-fields, depth first. */
  function Paths(schema: Schema, prefix: Path, cols: seq<Column>, seen: set<RelId>): seq<Path>
    decreases schema.Keys - seen, |cols|
  {
    if cols == [] then []
    else [prefix + [cols[0]]] + (SubPaths(schema, prefix, cols[0], seen) + Paths(schema, prefix, cols[1..], seen))
  }

  function SubPaths(schema: Schema, prefix: Path, c: Column, seen: set<RelId>): seq<Path>
    decreases schema.Keys - seen, 0, 0
  {
    if Expands(schema, c, seen) then
      Smaller(schema, seen, c.composite.value);
      Paths(schema, prefix + [c], schema[c.composite.value], seen + {c.composite.value})
    else []
  }

  lemma Smaller(schema: Schema, seen: set<RelId>, r: RelId)
    requires r in schema && r !in seen
    ensures schema.Keys - (seen + {r}) < schema.Keys - seen
  {
    assert r in schema.Keys - seen;
  }

  function SlotsOf(paths: seq<Path>, base: nat): (slots: seq<Slot>)
    ensures |slots| == |paths|
    ensures forall i :: 0 <= i < |paths| ==> slots[i] == Slot(paths[i], (base + i) / 64, (base + i) % 64)
  {
    seq(|paths|, i requires 0 <= i < |paths| => Slot(paths[i], (base + i) / 64, (base + i) % 64))
  }

  /** The lookup tree of the columns, whose slots start at `base`. */
  function Nodes(schema: Schema, prefix: Path, cols: seq<Column>, seen: set<RelId>, base: nat): map<Column, MaskNode>
    decreases schema.Keys - seen, |cols|
  {
    if cols == [] then map[]
    else
      Nodes(schema, prefix, cols[1..], seen, base + 1 + |SubPaths(schema, prefix, cols[0], seen)|)
      [cols[0] := MaskNode(base, SubNodes(schema, prefix, cols[0], seen, base + 1))]
  }

  function SubNodes(schema: Schema, prefix: Path, c: Column, seen: set<RelId>, base: nat): map<Column, MaskNode>
    decreases schema.Keys - seen, 0, 0
  {
    if Expands(schema, c, seen) then
      Smaller(schema, seen, c.composite.value);
      Nodes(schema, prefix + [c], schema[c.composite.value], seen + {c.composite.value}, base)
    else map[]
  }

  class MaskLayout {
    const schema: Schema
    var slots: seq<Slot>
    var seen: set<RelId>

    constructor (schema: Schema, r: RelId)
      ensures slots == [] && seen == {r} && this.schema == schema
    {
      this.schema := schema;
      slots := [];
      seen := {r};
    }

    /** addColumns: a slot for each column and, below a composite one, for each of its fields. */
    method AddColumns(prefix: Path, cols: seq<Column>) returns (nodes: map<Column, MaskNode>)
      modifies this
      ensures seen == old(seen)
      ensures slots == old(slots) + SlotsOf(Paths(schema, prefix, cols, seen), |old(slots)|)
      ensures nodes == Nodes(schema, prefix, cols, seen, |old(slots)|)
      decreases schema.Keys - seen, |cols|
    {
      hide SlotsOf, Paths, SubPaths, Nodes, SubNodes;
      NoColumns(schema, prefix, seen, |slots|);
      if cols == [] {
        return map[];
      }
      var base := |slots|;
      var path := prefix + [cols[0]];
      slots := slots + [Slot(path, base / 64, base % 64)];
      var children := AddSub(prefix, cols[0]);
      var rest := AddColumns(prefix, cols[1..]);
      nodes := rest[cols[0] := MaskNode(base, children)];
      PathsStep(schema, prefix, cols, seen);
      NodesStep(schema, prefix, cols, seen, base);
      ThreeSlots(old(slots), path, SubPaths(schema, prefix, cols[0], seen), Paths(schema, prefix, cols[1..], seen),
                 base);
    }

    method AddSub(prefix: Path, c: Column) returns (nodes: map<Column, MaskNode>)
      modifies this
      ensures seen == old(seen)
      ensures slots == old(slots) + SlotsOf(SubPaths(schema, prefix, c, seen), |old(slots)|)
      ensures nodes == SubNodes(schema, prefix, c, seen, |old(slots)|)
      decreases schema.Keys - seen, 0, 0
    {
      hide SlotsOf;
      NoSlots(|slots|);
      nodes := map[];
      if c.composite.Some? && c.composite.value in schema && c.composite.value !in seen {
        var sub := c.composite.value;
        Smaller(schema, seen, sub);
        seen := seen + {sub};
        nodes := AddColumns(prefix + [c], schema[sub]);
        seen := seen - {sub};
        assert old(seen) + {sub} - {sub} == old(seen);
      }
    }
  }

  lemma NoColumns(schema: Schema, prefix: Path, seen: set<RelId>, base: nat)
    ensures SlotsOf(Paths(schema, prefix, [], seen), base) == [] && Nodes(schema, prefix, [], seen, base) == map[]
  {
  }

  lemma PathsStep(schema: Schema, prefix: Path, cols: seq<Column>, seen: set<RelId>)
    requires cols != []
    ensures Paths(schema, prefix, cols, seen) == [prefix + [cols[0]]]
            + (SubPaths(schema, prefix, cols[0], seen) + Paths(schema, prefix, cols[1..], seen))
  {
    hide SubPaths;
  }

  lemma NodesStep(schema: Schema, prefix: Path, cols: seq<Column>, seen: set<RelId>, base: nat)
    requires cols != []
    ensures Nodes(schema, prefix, cols, seen, base)
            == Nodes(schema, prefix, cols[1..], seen, base + 1 + |SubPaths(schema, prefix, cols[0], seen)|)
               [cols[0] := MaskNode(base, SubNodes(schema, prefix, cols[0], seen, base + 1))]
  {
    hide SubPaths, SubNodes;
  }

  /** The slots of a path, of the paths below it and of the paths after it. */
  lemma ThreeSlots(before: seq<Slot>, path: Path, sub: seq<Path>, more: seq<Path>, base: nat)
    requires base == |before|
    ensures before + SlotsOf([path] + (sub + more), base)
            == before + [Slot(path, base / 64, base % 64)] + SlotsOf(sub, base + 1) + SlotsOf(more, base + 1 + |sub|)
  {
    hide SlotsOf;
    SlotsJoin([path], sub + more, base);
    SlotsJoin(sub, more, base + 1);
    OneSlot(path, base);
    Grouped(before, SlotsOf([path], base), SlotsOf(sub, base + 1), SlotsOf(more, base + 1 + |sub|));
  }

  lemma Grouped(a: seq<Slot>, b: seq<Slot>, c: seq<Slot>, d: seq<Slot>)
    ensures a + (b + (c + d)) == a + b + c + d
  {
  }

  lemma NoSlots(base: nat)
    ensures SlotsOf([], base) == []
  {
  }

  lemma OneSlot(path: Path, base: nat)
    ensures SlotsOf([path], base) == [Slot(path, base / 64, base % 64)]
  {
  }

  lemma SlotsJoin(a: seq<Path>, b: seq<Path>, base: nat)
    ensures SlotsOf(a + b, base) == SlotsOf(a, base) + SlotsOf(b, base + |a|)
  {
    forall i | 0 <= i < |a + b| ensures SlotsOf(a + b, base)[i] == (SlotsOf(a, base) + SlotsOf(b, base + |a|))[i] {
      if i >= |a| {
        assert (a + b)[i] == b[i - |a|];
        assert base + i == base + |a| + (i - |a|);
      }
    }
  }

  // ---- looking a slot up -------------------------------------------------------------------------------------

  /** MaskSlotFor: down the tree, one column of the path at a time. */
  function Find(nodes: map<Column, MaskNode>, path: Path): Option<nat>
    decreases |path|
  {
    if path == [] || path[0] !in nodes then None
    else if |path| == 1 then Some(nodes[path[0]].slot)
    else Find(nodes[path[0]].children, path[1..])
  }

  /** Every path of the layout is found at its own place. */
  lemma {:induction false} FindSlot(schema: Schema, prefix: Path, cols: seq<Column>, seen: set<RelId>, base: nat,
                                    k: nat)
    requires SchemaOk(schema) && Distinct(cols) && k < |Paths(schema, prefix, cols, seen)|
    ensures var p := Paths(schema, prefix, cols, seen)[k];
            prefix < p && p[|prefix|] in cols && Find(Nodes(schema, prefix, cols, seen, base), p[|prefix|..])
            == Some(base + k)
    decreases schema.Keys - seen, |cols|
  {
    var c := cols[0];
    var sub := SubPaths(schema, prefix, c, seen);
    var p := Paths(schema, prefix, cols, seen)[k];
    if k == 0 {
      assert p[|prefix|..] == [c];
    } else if k <= |sub| {
      assert p == sub[k - 1];
      var r := c.composite.value;
      Smaller(schema, seen, r);
      FindSlot(schema, prefix + [c], schema[r], seen + {r}, base + 1, k - 1);
      assert p[|prefix|..] == [c] + p[|prefix| + 1..];
      assert p[|prefix|] == c;
    } else {
      FindSlot(schema, prefix, cols[1..], seen, base + 1 + |sub|, k - 1 - |sub|);
      assert p[|prefix|] in cols[1..];
      assert p[|prefix|] != c;
      OtherColumn(schema, prefix, cols, seen, base, p[|prefix|..]);
    }
  }

  lemma OtherColumn(schema: Schema, prefix: Path, cols: seq<Column>, seen: set<RelId>, base: nat, path: Path)
    requires cols != [] && path != [] && path[0] != cols[0]
    ensures Find(Nodes(schema, prefix, cols, seen, base), path)
            == Find(Nodes(schema, prefix, cols[1..], seen, base + 1 + |SubPaths(schema, prefix, cols[0], seen)|), path)
  {
  }

  /** And nothing else is found. */
  lemma {:induction false} FoundIn(schema: Schema, prefix: Path, cols: seq<Column>, seen: set<RelId>, base: nat,
                                   path: Path)
    requires Find(Nodes(schema, prefix, cols, seen, base), path).Some?
    ensures var i := Find(Nodes(schema, prefix, cols, seen, base), path).value;
            base <= i < base + |Paths(schema, prefix, cols, seen)|
            && Paths(schema, prefix, cols, seen)[i - base] == prefix + path
    decreases schema.Keys - seen, |cols|
  {
    var c := cols[0];
    var sub := SubPaths(schema, prefix, c, seen);
    if path[0] != c {
      OtherColumn(schema, prefix, cols, seen, base, path);
      FoundIn(schema, prefix, cols[1..], seen, base + 1 + |sub|, path);
    } else if |path| == 1 {
      assert path == [c];
    } else {
      SubFound(schema, prefix, c, seen, base + 1, path[1..]);
      assert prefix + path == prefix + [c] + path[1..];
    }
  }

  lemma {:induction false} SubFound(schema: Schema, prefix: Path, c: Column, seen: set<RelId>, base: nat, path: Path)
    requires Find(SubNodes(schema, prefix, c, seen, base), path).Some?
    ensures var i := Find(SubNodes(schema, prefix, c, seen, base), path).value;
            base <= i < base + |SubPaths(schema, prefix, c, seen)|
            && SubPaths(schema, prefix, c, seen)[i - base] == prefix + [c] + path
    decreases schema.Keys - seen, 0, 0
  {
    var r := c.composite.value;
    Smaller(schema, seen, r);
    FoundIn(schema, prefix + [c], schema[r], seen + {r}, base, path);
  }

  /** A relation's layout, from its own columns. */
  function LayoutPaths(schema: Schema, r: RelId): seq<Path>
    requires r in schema
  {
    Paths(schema, [], schema[r], {r})
  }

  /** MaskSlotFor inverts MaskSlots: a path is found exactly at the slot that holds it, so no path has two. */
  lemma SlotForInverts(schema: Schema, r: RelId, path: Path, i: nat)
    requires SchemaOk(schema) && r in schema
    ensures Find(Nodes(schema, [], schema[r], {r}, 0), path) == Some(i)
            <==> i < |LayoutPaths(schema, r)| && LayoutPaths(schema, r)[i] == path
  {
    hide Paths, Nodes, Find;
    if i < |LayoutPaths(schema, r)| && LayoutPaths(schema, r)[i] == path {
      FindSlot(schema, [], schema[r], {r}, 0, i);
      assert path[0..] == path;
    }
    if Find(Nodes(schema, [], schema[r], {r}, 0), path) == Some(i) {
      FoundIn(schema, [], schema[r], {r}, 0, path);
      assert [] + path == path;
    }
  }

  // ---- words and bits --------------------------------------------------------------------------------------------

  function MaskWords(count: nat): nat {
    if (count + 63) / 64 < 1 then 1 else (count + 63) / 64
  }

  /** Each slot has a bit of its own, in a word there is. */
  lemma BitsApart(i: nat, j: nat, count: nat)
    requires i < count && j < count
    ensures i / 64 < MaskWords(count) && i % 64 < 64
    ensures i / 64 == j / 64 && i % 64 == j % 64 ==> i == j
  {
  }

  /** The mask words after a row supplied some slots. */
  method FillMask(count: nat, supplied: seq<nat>) returns (mask: seq<Word>)
    requires forall i :: 0 <= i < |supplied| ==> supplied[i] < count
    ensures |mask| == MaskWords(count)
    ensures forall s :: 0 <= s < count ==> (Test(mask[s / 64], s % 64) <==> s in supplied)
  {
    hide Test, SetBit;
    mask := seq(MaskWords(count), _ => {});
    forall s | 0 <= s < count ensures !Test(mask[s / 64], s % 64) {
      TestSees({}, 0, s % 64);
    }
    for i := 0 to |supplied|
      invariant |mask| == MaskWords(count)
      invariant forall s :: 0 <= s < count ==> (Test(mask[s / 64], s % 64) <==> s in supplied[..i])
    {
      var slot := supplied[i];
      ghost var before := mask;
      mask := mask[slot / 64 := SetBit(mask[slot / 64], slot % 64)];
      forall s | 0 <= s < count ensures Test(mask[s / 64], s % 64) <==> s in supplied[..i + 1] {
        BitsApart(s, slot, count);
        TestSees(before[slot / 64], slot % 64, s % 64);
        assert supplied[..i + 1] == supplied[..i] + [slot];
      }
    }
    assert supplied[..|supplied|] == supplied;
  }
}
