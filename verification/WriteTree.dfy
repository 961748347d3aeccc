/**
 The rows of a write: the query tree and its node ids (query/write.go) and the walk that turns a nested
 payload into temp rows with row ids, parent ids and presence (query/write_denormalize.go).
 */
module WriteTree {
  import opened Wrappers

  type Rel = nat
  type Col = nat

  datatype Value = Null | Datum(n: int)

  datatype Json = JNull | JLeaf(v: int) | JArray(items: seq<Json>) | JObject(fields: map<string, Json>)

  datatype Mode = READONLY | INSERT | UPSERT | UPDATE_EXISTING | MERGE | MERGE_NEW | MERGE_UPDATE | DELETE_ONLY

  /** Where the payload holds a column's value. */
  datatype Extractor = Extractor(path: seq<string>, col: Col)

  /** A field of the select that embeds a child: incoming[at] or outgoing[at]. */
  datatype Embed = Embed(key: string, incoming: bool, at: nat)

  /** A node of a resolved query. `local` is its column joined to its parent's column `distant`. */
  datatype Node = Node(
    id: nat, rel: Rel, mode: Mode,
    extractors: seq<Extractor>, insertCols: set<Col>, updateCols: set<Col>,
    local: Col, distant: Col,
    embeds: seq<Embed>, outgoing: seq<Node>, incoming: seq<Node>)

  /** What the database knows: the identity column and columns of a relation, defaults, value encoding. */
  datatype Env = Env(
    ident: Rel -> Col,
    columns: Rel -> set<Col>,
    hasDefault: (Rel, Col) -> bool,
    notNull: (Rel, Col) -> bool,
    gen: (nat, Col) -> Value,
    encode: (Rel, Col, Json) -> Option<Value>)

  // ---- node ids ---------------------------------------------------------------------------------

  /** How many nodes of a subtree are written. */
  function Count(t: Node): nat
    decreases t, 0
  {
    if t.mode.READONLY? then 0 else 1 + CountAll(t.outgoing) + CountAll(t.incoming)
  }

  function CountAll(ts: seq<Node>): nat
    decreases ts, 0
  {
    if ts == [] then 0 else Count(ts[0]) + CountAll(ts[1..])
  }

  /** The ids of the written nodes run on from `from`, parents first. */
  ghost predicate Numbered(t: Node, from: nat)
    decreases t, 0
  {
    t.mode.READONLY?
    || (t.id == from && NumberedAll(t.outgoing, from + 1) && NumberedAll(t.incoming, from + 1 + CountAll(t.outgoing)))
  }

  ghost predicate NumberedAll(ts: seq<Node>, from: nat)
    decreases ts, 0
  {
    ts == [] || (Numbered(ts[0], from) && NumberedAll(ts[1..], from + Count(ts[0])))
  }

  /** The same tree but for its ids. */
  ghost predicate SameButIds(a: Node, b: Node)
    decreases a, 0
  {
    && b.(id := a.id, outgoing := a.outgoing, incoming := a.incoming) == a
    && SameAll(a.outgoing, b.outgoing) && SameAll(a.incoming, b.incoming)
  }

  ghost predicate SameAll(a: seq<Node>, b: seq<Node>)
    decreases a, 0
  {
    |a| == |b| && (a == [] || (SameButIds(a[0], b[0]) && SameAll(a[1..], b[1..])))
  }

  /** assignNodeIDs: numbers the written nodes of the tree, a node before its children. */
  method AssignNodeIDs(root: Node, startAt: nat) returns (t: Node, next: nat)
    ensures Numbered(t, startAt) && SameButIds(root, t) && next == startAt + Count(t)
    decreases root, 0
  {
    if root.mode == READONLY {
      SameSelf(root);
      return root, startAt;
    }
    var outs, ins;
    outs, next := AssignAll(root.outgoing, startAt + 1);
    ins, next := AssignAll(root.incoming, next);
    t := root.(id := startAt, outgoing := outs, incoming := ins);
  }

  method AssignAll(roots: seq<Node>, startAt: nat) returns (ts: seq<Node>, next: nat)
    ensures NumberedAll(ts, startAt) && SameAll(roots, ts) && next == startAt + CountAll(ts)
    decreases roots, 0
  {
    if roots == [] {
      return [], startAt;
    }
    var first;
    first, next := AssignNodeIDs(roots[0], startAt);
    var rest;
    rest, next := AssignAll(roots[1..], next);
    ts := [first] + rest;
    assert ts[1..] == rest;
  }

  lemma {:induction false} SameSelf(t: Node)
    ensures SameButIds(t, t)
    decreases t, 0
  {
    SameSelfAll(t.outgoing);
    SameSelfAll(t.incoming);
  }

  lemma {:induction false} SameSelfAll(ts: seq<Node>)
    ensures SameAll(ts, ts)
    decreases ts, 0
  {
    if ts != [] {
      SameSelf(ts[0]);
      SameSelfAll(ts[1..]);
    }
  }

  // ---- the payload --------------------------------------------------------------------------------

  function ObjectGet(j: Json, key: string): Option<Json> {
    if j.JObject? && key in j.fields then Some(j.fields[key]) else None
  }

  function Follow(j: Json, path: seq<string>): Option<Json>
    decreases |path|
  {
    if path == [] then Some(j)
    else
      var v := ObjectGet(j, path[0]);
      if v.None? then None else Follow(v.value, path[1..])
  }

  datatype TempRow = TempRow(rowId: nat, node: nat, rel: Rel, parent: Option<nat>, vals: map<Col, Value>,
                             mask: set<Col>)

  /** The values a row supplies, column by column; None when one cannot be encoded. */
  function Fill(env: Env, rel: Rel, extractors: seq<Extractor>, raw: Json): Option<map<Col, Value>>
    decreases |extractors|
  {
    if extractors == [] then Some(map[])
    else
      var before := Fill(env, rel, extractors[..|extractors| - 1], raw);
      var ex := extractors[|extractors| - 1];
      if before.None? then None
      else
        var v := Follow(raw, ex.path);
        if v.None? then before
        else
          var e := env.encode(rel, ex.col, v.value);
          if e.None? then None else Some(before.value[ex.col := e.value])
  }

  datatype Walked = Refused | Rows(rows: seq<TempRow>)

  function Child(node: Node, e: Embed): (c: Option<Node>)
    ensures c.Some? ==> c.value in node.outgoing || c.value in node.incoming
  {
    if e.incoming then if e.at < |node.incoming| then Some(node.incoming[e.at]) else None
    else if e.at < |node.outgoing| then Some(node.outgoing[e.at]) else None
  }

  /** The rows of one payload object: its own, then those of each embedded child, in the order of the select. */
  function Walk(env: Env, node: Node, raw: Json, parent: Option<nat>, next: nat): Walked
    decreases node, 2, 0
  {
    if node.mode.READONLY? then Rows([])
    else if !raw.JObject? then Refused
    else
      var vals := Fill(env, node.rel, node.extractors, raw);
      if vals.None? then Refused
      else
        var kids := WalkEmbeds(env, node, node.embeds, raw, next, next + 1);
        if kids.Refused? then Refused
        else Rows([TempRow(next, node.id, node.rel, parent, vals.value, vals.value.Keys)] + kids.rows)
  }

  function WalkEmbeds(env: Env, node: Node, embeds: seq<Embed>, raw: Json, me: nat, next: nat): Walked
    decreases node, 1, |embeds|
  {
    if embeds == [] then Rows([])
    else
      var first := WalkEmbed(env, node, embeds[0], raw, me, next);
      if first.Refused? then Refused
      else
        var rest := WalkEmbeds(env, node, embeds[1..], raw, me, next + |first.rows|);
        if rest.Refused? then Refused else Rows(first.rows + rest.rows)
  }

  function WalkEmbed(env: Env, node: Node, e: Embed, raw: Json, me: nat, next: nat): Walked
    decreases node, 0, 0
  {
    var c := Child(node, e);
    var v := ObjectGet(raw, e.key);
    if c.None? || v.None? || v.value.JNull? then Rows([])
    else if e.incoming then if v.value.JArray? then WalkItems(env, c.value, v.value.items, me, next) else Refused
    else Walk(env, c.value, v.value, Some(me), next)
  }

  function WalkItems(env: Env, child: Node, items: seq<Json>, me: nat, next: nat): Walked
    decreases child, 3, |items|
  {
    if items == [] then Rows([])
    else
      var first := Walk(env, child, items[0], Some(me), next);
      if first.Refused? then Refused
      else
        var rest := WalkItems(env, child, items[1..], me, next + |first.rows|);
        if rest.Refused? then Refused else Rows(first.rows + rest.rows)
  }

  /** denormalizeNode: the root rows of the payload, each walked in turn. */
  function Denormalize(env: Env, root: Node, items: seq<Json>, next: nat): Walked
    decreases |items|
  {
    if items == [] then Rows([])
    else
      var first := Walk(env, root, items[0], None, next);
      if first.Refused? then Refused
      else
        var rest := Denormalize(env, root, items[1..], next + |first.rows|);
        if rest.Refused? then Refused else Rows(first.rows + rest.rows)
  }

  // ---- row-id discipline --------------------------------------------------------------------------------

  /** c is a written child of p, somewhere under t. */
  ghost predicate Edge(t: Node, p: Node, c: Node)
    decreases t
  {
    && !t.mode.READONLY?
    && ((p == t && !c.mode.READONLY? && (c in t.outgoing || c in t.incoming))
        || (exists i :: 0 <= i < |t.outgoing| && Edge(t.outgoing[i], p, c))
        || (exists i :: 0 <= i < |t.incoming| && Edge(t.incoming[i], p, c)))
  }

  predicate IsRowOf(r: TempRow, n: Node) {
    r.node == n.id && r.rel == n.rel
  }

  /** Row i's parent is an earlier row, of its node's parent. */
  ghost predicate Linked(t: Node, rows: seq<TempRow>, base: nat, i: nat)
    requires i < |rows|
  {
    exists p, c :: Edge(t, p, c) && LinkedBy(p, c, rows, base, i)
  }

  ghost predicate LinkedBy(p: Node, c: Node, rows: seq<TempRow>, base: nat, i: nat)
    requires i < |rows|
  {
    && IsRowOf(rows[i], c) && rows[i].parent.Some?
    && base <= rows[i].parent.value < base + i && IsRowOf(rows[rows[i].parent.value - base], p)
  }

  ghost predicate Consecutive(rows: seq<TempRow>, base: nat) {
    forall i :: 0 <= i < |rows| ==> rows[i].rowId == base + i
  }

  /** Rows of children of t, whose parent row is `me`, and rows below them. */
  ghost predicate KidRows(t: Node, rows: seq<TempRow>, base: nat, me: nat) {
    && Consecutive(rows, base)
    && forall i :: 0 <= i < |rows| ==> KidRow(t, rows[i], me) || Linked(t, rows, base, i)
  }

  ghost predicate KidRow(t: Node, r: TempRow, me: nat) {
    r.parent == Some(me) && exists c: Node :: !c.mode.READONLY? && (c in t.outgoing || c in t.incoming) && IsRowOf(r, c)
  }

  /** The rows of one object: the first is its own, every other is linked to an earlier one. */
  ghost predicate TreeRows(t: Node, rows: seq<TempRow>, base: nat, parent: Option<nat>) {
    && Consecutive(rows, base)
    && (t.mode.READONLY? ==> rows == [])
    && (rows != [] ==> IsRowOf(rows[0], t) && rows[0].parent == parent)
    && forall i :: 0 < i < |rows| ==> Linked(t, rows, base, i)
  }

  lemma EdgeUp(t: Node, k: Node, p: Node, c: Node)
    requires !t.mode.READONLY? && (k in t.outgoing || k in t.incoming) && Edge(k, p, c)
    ensures Edge(t, p, c)
  {
    if k in t.outgoing {
      var i :| 0 <= i < |t.outgoing| && t.outgoing[i] == k;
    } else {
      var i :| 0 <= i < |t.incoming| && t.incoming[i] == k;
    }
  }

  /** Links stay links when the rows become part of more rows. */
  lemma LinkedShift(k: Node, t: Node, rows: seq<TempRow>, base: nat, i: nat, all: seq<TempRow>, at: nat)
    requires i < |rows| && Linked(k, rows, base + at, i) && forall p, c :: Edge(k, p, c) ==> Edge(t, p, c)
    requires at + |rows| <= |all| && all[at..at + |rows|] == rows
    ensures Linked(t, all, base, at + i)
  {
    var p, c :| Edge(k, p, c) && LinkedBy(p, c, rows, base + at, i);
    forall j | 0 <= j < |rows| ensures all[at + j] == rows[j] {
      assert all[at..at + |rows|][j] == all[at + j];
    }
    assert Edge(t, p, c) && LinkedBy(p, c, all, base, at + i);
  }

  lemma KidsOfTree(t: Node, k: Node, rows: seq<TempRow>, base: nat, me: nat)
    requires !t.mode.READONLY? && (k in t.outgoing || k in t.incoming) && TreeRows(k, rows, base, Some(me))
    ensures KidRows(t, rows, base, me)
  {
    forall p, c | Edge(k, p, c) ensures Edge(t, p, c) {
      EdgeUp(t, k, p, c);
    }
    forall i | 0 <= i < |rows| ensures KidRow(t, rows[i], me) || Linked(t, rows, base, i) {
      if i > 0 {
        assert rows[0..0 + |rows|] == rows;
        LinkedShift(k, t, rows, base, i, rows, 0);
      }
    }
  }

  lemma KidsJoin(t: Node, a: seq<TempRow>, b: seq<TempRow>, base: nat, me: nat)
    requires KidRows(t, a, base, me) && KidRows(t, b, base + |a|, me)
    ensures KidRows(t, a + b, base, me)
  {
    hide KidRow, Linked;
    var all := a + b;
    assert all[0..0 + |a|] == a && all[|a|..|a| + |b|] == b;
    forall i | 0 <= i < |all| ensures KidRow(t, all[i], me) || Linked(t, all, base, i) {
      if i < |a| {
        assert all[i] == a[i];
        if Linked(t, a, base, i) {
          LinkedShift(t, t, a, base, i, all, 0);
        }
      } else {
        var j := i - |a|;
        assert all[i] == b[j];
        if Linked(t, b, base + |a|, j) {
          LinkedShift(t, t, b, base, j, all, |a|);
        }
      }
    }
  }

  lemma TreeOfKids(t: Node, own: TempRow, kids: seq<TempRow>, base: nat)
    requires !t.mode.READONLY? && IsRowOf(own, t) && own.rowId == base && KidRows(t, kids, base + 1, base)
    ensures TreeRows(t, [own] + kids, base, own.parent)
  {
    hide Linked;
    var all := [own] + kids;
    assert all[1..1 + |kids|] == kids;
    forall i | 0 < i < |all| ensures Linked(t, all, base, i) {
      if KidRow(t, kids[i - 1], base) {
        OwnKid(t, all, base, i);
      } else {
        LinkedShift(t, t, kids, base, i - 1, all, 1);
      }
    }
  }

  lemma OwnKid(t: Node, all: seq<TempRow>, base: nat, i: nat)
    requires 0 < i < |all| && !t.mode.READONLY? && IsRowOf(all[0], t) && KidRow(t, all[i], base)
    ensures Linked(t, all, base, i)
  {
    var c: Node :| !c.mode.READONLY? && (c in t.outgoing || c in t.incoming) && IsRowOf(all[i], c);
    assert Edge(t, t, c) && LinkedBy(t, c, all, base, i);
  }

  /** The walk keeps the discipline: row ids run on, and every parent id names an earlier row of the parent node. */
  lemma {:induction false} WalkRows(env: Env, node: Node, raw: Json, parent: Option<nat>, next: nat)
    requires Walk(env, node, raw, parent, next).Rows?
    ensures TreeRows(node, Walk(env, node, raw, parent, next).rows, next, parent)
    decreases node, 2, 0
  {
    hide WalkEmbeds, Fill, KidRows;
    if !node.mode.READONLY? {
      var kids := WalkEmbeds(env, node, node.embeds, raw, next, next + 1);
      EmbedRows(env, node, node.embeds, raw, next, next + 1);
      TreeOfKids(node, Walk(env, node, raw, parent, next).rows[0], kids.rows, next);
    }
  }

  lemma {:induction false} EmbedRows(env: Env, node: Node, embeds: seq<Embed>, raw: Json, me: nat, next: nat)
    requires !node.mode.READONLY? && WalkEmbeds(env, node, embeds, raw, me, next).Rows?
    ensures KidRows(node, WalkEmbeds(env, node, embeds, raw, me, next).rows, next, me)
    decreases node, 1, |embeds|
  {
    hide WalkEmbed, KidRow, Linked;
    if embeds != [] {
      var first := WalkEmbed(env, node, embeds[0], raw, me, next);
      OneEmbedRows(env, node, embeds[0], raw, me, next);
      EmbedRows(env, node, embeds[1..], raw, me, next + |first.rows|);
      KidsJoin(node, first.rows, WalkEmbeds(env, node, embeds[1..], raw, me, next + |first.rows|).rows, next, me);
    }
  }

  lemma {:induction false} OneEmbedRows(env: Env, node: Node, e: Embed, raw: Json, me: nat, next: nat)
    requires !node.mode.READONLY? && WalkEmbed(env, node, e, raw, me, next).Rows?
    ensures KidRows(node, WalkEmbed(env, node, e, raw, me, next).rows, next, me)
    decreases node, 0, 0
  {
    hide Walk, WalkItems, KidRow, Linked;
    var c := Child(node, e);
    var v := ObjectGet(raw, e.key);
    if c.Some? && v.Some? && !v.value.JNull? {
      if e.incoming {
        ItemRows(env, node, c.value, v.value.items, me, next);
      } else {
        WalkRows(env, c.value, v.value, Some(me), next);
        KidsOfTree(node, c.value, Walk(env, c.value, v.value, Some(me), next).rows, next, me);
      }
    }
  }

  lemma {:induction false} ItemRows(env: Env, node: Node, child: Node, items: seq<Json>, me: nat, next: nat)
    requires !node.mode.READONLY? && (child in node.outgoing || child in node.incoming)
             && WalkItems(env, child, items, me, next).Rows?
    ensures KidRows(node, WalkItems(env, child, items, me, next).rows, next, me)
    decreases child, 3, |items|
  {
    hide Walk, KidRow, Linked;
    if items != [] {
      var first := Walk(env, child, items[0], Some(me), next);
      WalkRows(env, child, items[0], Some(me), next);
      KidsOfTree(node, child, first.rows, next, me);
      ItemRows(env, node, child, items[1..], me, next + |first.rows|);
      KidsJoin(node, first.rows, WalkItems(env, child, items[1..], me, next + |first.rows|).rows, next, me);
    }
  }

  /** The rows of a whole payload: rows of the root without a parent, and rows linked to an earlier one. */
  ghost predicate PayloadRows(t: Node, rows: seq<TempRow>, base: nat) {
    && Consecutive(rows, base)
    && forall i :: 0 <= i < |rows| ==> (IsRowOf(rows[i], t) && rows[i].parent.None?) || Linked(t, rows, base, i)
  }

  lemma {:induction false} DenormalizeRows(env: Env, root: Node, items: seq<Json>, next: nat)
    requires Denormalize(env, root, items, next).Rows?
    ensures PayloadRows(root, Denormalize(env, root, items, next).rows, next)
    decreases |items|
  {
    hide Walk, Linked;
    if items != [] {
      var first := Walk(env, root, items[0], None, next).rows;
      WalkRows(env, root, items[0], None, next);
      var rest := Denormalize(env, root, items[1..], next + |first|).rows;
      DenormalizeRows(env, root, items[1..], next + |first|);
      var all := first + rest;
      assert all[0..0 + |first|] == first && all[|first|..|first| + |rest|] == rest;
      forall i | 0 <= i < |all| ensures (IsRowOf(all[i], root) && all[i].parent.None?) || Linked(root, all, next, i) {
        if i < |first| {
          assert all[i] == first[i];
          if i > 0 {
            LinkedShift(root, root, first, next, i, all, 0);
          }
        } else {
          var j := i - |first|;
          assert all[i] == rest[j];
          if Linked(root, rest, next + |first|, j) {
            LinkedShift(root, root, rest, next, j, all, |first|);
          }
        }
      }
    }
  }

  // ---- the denormalizer -----------------------------------------------------------------------------------

  /** The nodes that have rows in a relation's temp table. */
  ghost function TableNodes(rows: seq<TempRow>, rel: Rel): set<nat> {
    set i | 0 <= i < |rows| && rows[i].rel == rel :: rows[i].node
  }

  ghost function NodesWithRows(rows: seq<TempRow>): set<nat> {
    set i | 0 <= i < |rows| :: rows[i].node
  }

  function NodesIn(tableNodes: map<Rel, set<nat>>, rel: Rel): set<nat> {
    if rel in tableNodes then tableNodes[rel] else {}
  }

  class Denormalizer {
    const env: Env
    var rows: seq<TempRow>
    var nextRowID: nat
    var populated: set<nat>
    var tableNodes: map<Rel, set<nat>>

    ghost predicate Valid()
      reads this
    {
      && populated == NodesWithRows(rows)
      && forall rel :: NodesIn(tableNodes, rel) == TableNodes(rows, rel)
    }

    constructor (env: Env, startRowID: nat)
      ensures Valid() && this.env == env && rows == [] && nextRowID == startRowID
    {
      this.env := env;
      rows := [];
      nextRowID := startRowID;
      populated := {};
      tableNodes := map[];
    }

    /** Adds a row to its table's batch. */
    method AddRow(r: TempRow)
      requires Valid()
      modifies this
      ensures Valid() && rows == old(rows) + [r] && nextRowID == old(nextRowID)
    {
      ghost var before := rows;
      rows := rows + [r];
      populated := populated + {r.node};
      tableNodes := tableNodes[r.rel := NodesIn(tableNodes, r.rel) + {r.node}];
      AddedNodes(before, r);
    }

    /** walkNode: appends the row of `raw` and those of its embedded children. */
    method WalkNode(node: Node, raw: Json, parent: Option<nat>) returns (ok: bool)
      requires Valid()
      modifies this
      ensures Valid()
      ensures var w := Walk(env, node, raw, parent, old(nextRowID));
              ok == w.Rows? && (ok ==> rows == old(rows) + w.rows && nextRowID == old(nextRowID) + |w.rows|)
      decreases node, 2, 0
    {
      hide Fill, WalkEmbeds, NodesWithRows, TableNodes;
      if node.mode == READONLY {
        return true;
      }
      if !raw.JObject? {
        return false;
      }
      var rowID := nextRowID;
      nextRowID := nextRowID + 1;
      var vals := Fill(env, node.rel, node.extractors, raw);
      if vals.None? {
        return false;
      }
      AddRow(TempRow(rowID, node.id, node.rel, parent, vals.value, vals.value.Keys));
      ghost var kids := WalkEmbeds(env, node, node.embeds, raw, rowID, rowID + 1);
      ok := WalkFields(node, raw, rowID);
      if ok {
        assert old(rows) + ([TempRow(rowID, node.id, node.rel, parent, vals.value, vals.value.Keys)] + kids.rows)
            == old(rows) + [TempRow(rowID, node.id, node.rel, parent, vals.value, vals.value.Keys)] + kids.rows;
      }
    }

    /** The loop over the fields of the select that embed a child. */
    method WalkFields(node: Node, raw: Json, rowID: nat) returns (ok: bool)
      requires Valid()
      modifies this
      ensures Valid()
      ensures var w := WalkEmbeds(env, node, node.embeds, raw, rowID, old(nextRowID));
              ok == w.Rows? && (ok ==> rows == old(rows) + w.rows && nextRowID == old(nextRowID) + |w.rows|)
      decreases node, 1, |node.embeds|
    {
      hide WalkEmbed, NodesWithRows, TableNodes;
      ghost var whole := WalkEmbeds(env, node, node.embeds, raw, rowID, nextRowID);
      ghost var done: seq<TempRow> := [];
      assert node.embeds[0..] == node.embeds;
      for i := 0 to |node.embeds|
        invariant Valid() && rows == old(rows) + done && nextRowID == old(nextRowID) + |done|
        invariant whole == Before(done, WalkEmbeds(env, node, node.embeds[i..], raw, rowID, nextRowID))
      {
        assert node.embeds[i..][0] == node.embeds[i] && node.embeds[i..][1..] == node.embeds[i + 1..];
        ghost var first := WalkEmbed(env, node, node.embeds[i], raw, rowID, nextRowID);
        ok := WalkField(node, node.embeds[i], raw, rowID);
        if !ok {
          return false;
        }
        BeforeTwice(done, first.rows, WalkEmbeds(env, node, node.embeds[i + 1..], raw, rowID, nextRowID));
        done := done + first.rows;
      }
      ok := true;
    }

    method WalkField(node: Node, e: Embed, raw: Json, rowID: nat) returns (ok: bool)
      requires Valid()
      modifies this
      ensures Valid()
      ensures var w := WalkEmbed(env, node, e, raw, rowID, old(nextRowID));
              ok == w.Rows? && (ok ==> rows == old(rows) + w.rows && nextRowID == old(nextRowID) + |w.rows|)
      decreases node, 0, 0
    {
      hide Walk, NodesWithRows, TableNodes;
      var child := Child(node, e);
      if child.None? {
        return true;
      }
      var value := ObjectGet(raw, e.key);
      if value.None? || value.value.JNull? {
        return true;
      }
      if e.incoming {
        if !value.value.JArray? {
          return false;
        }
        var items := value.value.items;
        ghost var whole := WalkItems(env, child.value, items, rowID, nextRowID);
        ghost var done: seq<TempRow> := [];
        assert items[0..] == items;
        for i := 0 to |items|
          invariant Valid() && rows == old(rows) + done && nextRowID == old(nextRowID) + |done|
          invariant whole == Before(done, WalkItems(env, child.value, items[i..], rowID, nextRowID))
        {
          assert items[i..][0] == items[i] && items[i..][1..] == items[i + 1..];
          ghost var first := Walk(env, child.value, items[i], Some(rowID), nextRowID);
          ok := WalkNode(child.value, items[i], Some(rowID));
          if !ok {
            return false;
          }
          BeforeTwice(done, first.rows, WalkItems(env, child.value, items[i + 1..], rowID, nextRowID));
          done := done + first.rows;
        }
        ok := true;
      } else {
        ok := WalkNode(child.value, value.value, Some(rowID));
      }
    }
  }

  ghost function Before(done: seq<TempRow>, w: Walked): Walked {
    if w.Refused? then Refused else Rows(done + w.rows)
  }

  lemma BeforeTwice(a: seq<TempRow>, b: seq<TempRow>, w: Walked)
    ensures Before(a, Before(b, w)) == Before(a + b, w)
  {
    if w.Rows? {
      assert a + (b + w.rows) == (a + b) + w.rows;
    }
  }

  lemma AddedNodes(rows: seq<TempRow>, r: TempRow)
    ensures NodesWithRows(rows + [r]) == NodesWithRows(rows) + {r.node}
    ensures forall rel :: TableNodes(rows + [r], rel) == if rel == r.rel then TableNodes(rows, rel) + {r.node}
                          else TableNodes(rows, rel)
  {
    var all := rows + [r];
    assert all[|rows|] == r && forall i :: 0 <= i < |rows| ==> all[i] == rows[i];
  }

  /** denormalizeNode: the batches of every written node, and what the statements need to know about them. */
  method DenormalizeNode(env: Env, root: Node, payload: Json, startRowID: nat)
    returns (ok: bool, rows: seq<TempRow>, populated: set<nat>, tableNodes: map<Rel, set<nat>>)
    ensures ok <==> payload.JArray? && Denormalize(env, root, payload.items, startRowID).Rows?
    ensures ok ==> rows == Denormalize(env, root, payload.items, startRowID).rows && PayloadRows(root, rows, startRowID)
    ensures ok ==> populated == NodesWithRows(rows) && forall rel :: NodesIn(tableNodes, rel) == TableNodes(rows, rel)
  {
    hide Walk, NodesWithRows, TableNodes, PayloadRows;
    rows, populated, tableNodes := [], {}, map[];
    if !payload.JArray? {
      return false, rows, populated, tableNodes;
    }
    var d := new Denormalizer(env, startRowID);
    var items := payload.items;
    ghost var done: seq<TempRow> := [];
    assert items[0..] == items;
    for i := 0 to |items|
      invariant d.Valid() && d.env == env && d.rows == done && d.nextRowID == startRowID + |done|
      invariant Denormalize(env, root, items, startRowID)
                == Before(done, Denormalize(env, root, items[i..], d.nextRowID))
    {
      assert items[i..][0] == items[i] && items[i..][1..] == items[i + 1..];
      ghost var first := Walk(env, root, items[i], None, d.nextRowID);
      var good := d.WalkNode(root, items[i], None);
      if !good {
        return false, rows, populated, tableNodes;
      }
      BeforeTwice(done, first.rows, Denormalize(env, root, items[i + 1..], d.nextRowID));
      done := done + first.rows;
    }
    DenormalizeRows(env, root, items, startRowID);
    assert done + [] == done;
    return true, d.rows, d.populated, d.tableNodes;
  }
}
