/**
 The responses of a request of several write items: the fast path answers from its own statement, the general path reads
 back after every item has run (relexec/relexec.go). Exactly when no later item disturbs the rows are the two the same.
 */
module WriteReadBack {
  import opened Wrappers
  import opened WriteTree
  import opened WriteStatements
  import opened WritePhases
  import opened WriteMerge
  import opened WriteOutcome
  import opened WriteShared
  import opened WriteRequest
  import opened WriteAnswer
  import opened WriteFast
  import opened WriteUpdate

  // ---- the write items of a request --------------------------------------------------------------------------

  /** What the write items of a request share. */
  datatype Request = Request(nextNodeID: nat, nextRowID: nat, tn: Nodes, s: State)

  /**
   A write item: a tree through the temp tables, a flat write on the fast path, a patch for the rows its where found, a
   delete of the rows its where found, or one that is rolled back to its savepoint.
   */
  datatype Item =
    | General(t: Node, items: seq<Json>)
    | Fast(n: Node, items: seq<Json>)
    | Patch(n: Node, patch: Row, order: seq<Value>, fast: bool)
    | Remove(rel: Rel, keys: set<Value>)
    | Undone(item: Item)

  ghost predicate IsOrderly(x: Request) {
    Orderly(x.nextNodeID, x.nextRowID, x.s.temps, x.tn)
  }

  /** The node sets of the rows of one item. */
  ghost function NodesOf(rows: seq<TempRow>): (tn: Nodes)
    ensures forall rel :: NodesIn(tn, rel) == TableNodes(rows, rel)
  {
    var rels := set i | 0 <= i < |rows| :: rows[i].rel;
    map rel | rel in rels :: TableNodes(rows, rel)
  }

  /** The request with the rows of an item in its temp tables. */
  ghost function Begun(x: Request, rows: seq<TempRow>): Request {
    x.(tn := JoinNodes(x.tn, NodesOf(rows)), s := State(x.s.db, Load(x.s.temps, rows)))
  }

  ghost function GeneralNext(env: Env, x: Request, t: Node, rows: seq<TempRow>): Option<Request> {
    var b := Begun(x, rows);
    var r := Exec(env, b.s, b.tn, Queue(t, NodesWithRows(rows)));
    if r.None? then None else Some(Request(x.nextNodeID + Count(t), x.nextRowID + |rows|, b.tn, r.value))
  }

  /** A fast write leaves no temp rows. */
  ghost function FastNext(env: Env, x: Request, n: Node, rows: seq<TempRow>): Option<Request> {
    if rows == [] then Some(x.(nextNodeID := x.nextNodeID + 1))
    else
      var r := Run(FastEnv(env, x.nextRowID), State(x.s.db, FastTemps(rows)), FastNodes(n), Site(n, Root));
      if r.None? then None else Some(x.(nextNodeID := x.nextNodeID + 1, s := x.s.(db := r.value.db)))
  }

  /** The general update takes a row id for the patch, and one for each row it updates. */
  ghost function PatchNext(env: Env, x: Request, n: Node, patch: Row, order: seq<Value>, fast: bool): Option<Request> {
    var t, ident := TableOf(x.s.db, n.rel), env.ident(n.rel);
    if !(forall k :: k in order ==> k in t) || !Movable(t, patch, ident, order) then None
    else if fast then
      Some(x.(nextNodeID := x.nextNodeID + 1, s := x.s.(db :=
          x.s.db[n.rel := Patched(t, patch, ident, order, |order|)])))
    else
      Some(Request(x.nextNodeID + 1, x.nextRowID + |order| + (if order == [] then 1 else 2),
                   JoinNodes(x.tn, map[n.rel := {n.id}]),
                   PatchedState(x.s.db, x.s.temps, n, patch, ident, order, x.nextRowID + 1)))
  }

  function Without(t: Table, keys: set<Value>): Table {
    map k | k in t && k !in keys :: t[k]
  }

  /** The request after one more item; none when the item is refused, and the request with it. */
  ghost function Next(env: Env, x: Request, it: Item): Option<Request>
    decreases it
  {
    match it
    case General(t, items) =>
      if t.mode.READONLY? || !Numbered(t, x.nextNodeID) then None
      else
        var d := Denormalize(env, t, items, x.nextRowID);
        if d.Refused? then None else GeneralNext(env, x, t, d.rows)
    case Fast(n, items) =>
      if !Flat(n) || n.id != x.nextNodeID then None
      else
        var d := Denormalize(env, n, items, 0);
        if d.Refused? then None else FastNext(env, x, n, d.rows)
    case Patch(n, patch, order, fast) =>
      if n.id != x.nextNodeID then None else PatchNext(env, x, n, patch, order, fast)
    case Remove(rel, keys) =>
      Some(x.(s := x.s.(db := x.s.db[rel := Without(TableOf(x.s.db, rel), keys)])))
    case Undone(item) =>
      var y := Next(env, x, item);
      if y.None? then None else Some(y.value.(s := x.s))
  }

  ghost function After(env: Env, x: Request, later: seq<Item>): Option<Request>
    decreases |later|
  {
    if later == [] then Some(x)
    else
      var y := Next(env, x, later[0]);
      if y.None? then None else After(env, y.value, later[1..])
  }

  /** The relations an item may leave changed. */
  ghost predicate Touches(it: Item, rel: Rel) {
    match it
    case General(t, _) => exists s :: SiteIn(t, Root, s) && s.n.rel == rel
    case Fast(n, _) => n.rel == rel
    case Patch(n, _, _, _) => n.rel == rel
    case Remove(r, _) => r == rel
    case Undone(_) => false
  }

  // ---- what an item leaves alone ----------------------------------------------------------------------------------

  /** Ids only grow, and no node set loses a node. */
  ghost predicate Later(x: Request, y: Request) {
    && x.nextNodeID <= y.nextNodeID && x.nextRowID <= y.nextRowID
    && forall rel :: NodesIn(x.tn, rel) <= NodesIn(y.tn, rel)
  }

  lemma StillOrderly(x: Request, y: Request)
    requires IsOrderly(x) && Later(x, y)
    ensures IsOrderly(y.(s := x.s))
  {
    forall rel, id | HasRow(x.s.temps, rel, id) ensures id in NodesIn(y.tn, rel) {
      assert id in NodesIn(x.tn, rel);
    }
  }

  lemma JoinGrows(a: Nodes, b: Nodes)
    ensures forall rel :: NodesIn(a, rel) <= NodesIn(JoinNodes(a, b), rel)
  {
  }

  lemma KeepsTwice(a: State, b: State, c: State, n: Node)
    requires Keeps(a, b, n) && Keeps(b, c, n)
    ensures Keeps(a, c, n)
  {
  }

  lemma LoadKeeps(x: Request, t: Node, rows: seq<TempRow>, n: Node)
    requires IsOrderly(x) && Numbered(t, x.nextNodeID) && !t.mode.READONLY? && PayloadRows(t, rows, x.nextRowID)
             && n.id < x.nextNodeID
    ensures Keeps(x.s, Begun(x, rows).s, n)
  {
    hide Numbered, Count, PayloadRows, Load, JoinNodes;
    LoadedAll(t, x.s.temps, rows, x.nextRowID);
    RowFacts(t, rows, x.nextRowID, x.nextNodeID);
  }

  /** The statements of a tree numbered after a node leave that node's temp rows alone. */
  lemma ExecKeeps(env: Env, s: State, tn: Nodes, t: Node, pop: set<nat>, from: nat, n: Node)
    requires Numbered(t, from) && n.id < from && Ready(t, s.temps, tn, pop) && Exec(env, s, tn, Queue(t, pop)).Some?
    ensures var r := Exec(env, s, tn, Queue(t, pop)).value;
            && SameRows(s.temps, r.temps) && Keeps(s, r, n)
            && forall rel :: (forall d :: SiteIn(t, Root, d) ==> d.n.rel != rel) ==>
                               TableOf(r.db, rel) == TableOf(s.db, rel)
  {
    hide Numbered, SiteIn, Owns, Exec, Queue, Ready, TableOf;
    QueueOwned(t, s.temps, tn, pop);
    ExecFrame(env, s, tn, Queue(t, pop));
    var r := Exec(env, s, tn, Queue(t, pop)).value;
    forall st | st in Queue(t, pop) ensures st.site.n.id != n.id {
      SiteRange(t, Root, st.site, from);
    }
    forall a | IsOwn(r.temps, n, a) ensures IsOwn(s.temps, n, a) {
      assert r.temps[a] == s.temps[a].(vals := r.temps[a].vals);
    }
  }

  lemma GeneralKeeps(env: Env, x: Request, t: Node, rows: seq<TempRow>, n: Node)
    requires IsOrderly(x) && Numbered(t, x.nextNodeID) && !t.mode.READONLY? && PayloadRows(t, rows, x.nextRowID)
             && n.id < x.nextNodeID
    requires GeneralNext(env, x, t, rows).Some?
    ensures var y := GeneralNext(env, x, t, rows).value;
            && IsOrderly(y) && Later(x, y) && Keeps(x.s, y.s, n)
            && forall rel :: !Touches(General(t, []), rel) ==> TableOf(y.s.db, rel) == TableOf(x.s.db, rel)
  {
    hide Numbered, Count, PayloadRows, Load, JoinNodes, Exec, Queue, Ready, Orderly, SiteIn, TableOf, Keeps, SameRows;
    var b := Begun(x, rows);
    LoadOrderly(t, x.nextNodeID, x.nextRowID, x.s.temps, x.tn, rows, NodesOf(rows));
    LoadReady(t, x.nextNodeID, x.nextRowID, x.s.temps, x.tn, rows, NodesOf(rows));
    LoadKeeps(x, t, rows, n);
    ExecKeeps(env, b.s, b.tn, t, NodesWithRows(rows), x.nextNodeID, n);
    var y := GeneralNext(env, x, t, rows).value;
    OrderlyFrame(y.nextNodeID, y.nextRowID, b.s.temps, y.s.temps, b.tn);
    JoinGrows(x.tn, NodesOf(rows));
    KeepsTwice(x.s, b.s, y.s, n);
  }

  /** The temp rows of an item's own node come after all others. */
  ghost predicate Extended(a: Temps, b: Temps, p: Node, next: nat, count: nat) {
    && (forall i: nat :: i in b <==> i in a || next < i <= next + count)
    && (forall i: nat :: i in a ==> i < next && b[i] == a[i])
    && (forall i: nat :: next < i <= next + count ==> b[i].rowId == i && IsRowOf(b[i], p) && b[i].parent.None?)
  }

  lemma ExtendedOrderly(x: Request, y: Request, p: Node, next: nat, count: nat)
    requires IsOrderly(x) && Extended(x.s.temps, y.s.temps, p, next, count) && p.id == x.nextNodeID
    requires y.nextNodeID == x.nextNodeID + 1 && x.nextRowID <= y.nextRowID
             && (count > 0 ==> next + count < y.nextRowID)
    requires y.tn == JoinNodes(x.tn, map[p.rel := {p.id}])
    ensures IsOrderly(y)
  {
    hide JoinNodes, HasRow;
    ExtendedNodes(x, y, p, next, count);
  }

  lemma ExtendedNodes(x: Request, y: Request, p: Node, next: nat, count: nat)
    requires IsOrderly(x) && Extended(x.s.temps, y.s.temps, p, next, count)
             && y.tn == JoinNodes(x.tn, map[p.rel := {p.id}])
    ensures forall rel, id :: HasRow(y.s.temps, rel, id) ==> id in NodesIn(y.tn, rel)
  {
    forall rel, id | HasRow(y.s.temps, rel, id) ensures id in NodesIn(y.tn, rel) {
      assert NodesIn(y.tn, rel) == NodesIn(x.tn, rel) + NodesIn(map[p.rel := {p.id}], rel);
      var a :| a in y.s.temps && y.s.temps[a].rel == rel && y.s.temps[a].node == id;
      if a in x.s.temps {
        assert HasRow(x.s.temps, rel, id);
      }
    }
  }

  lemma ExtendedKeeps(a: State, b: State, p: Node, next: nat, count: nat, n: Node)
    requires Extended(a.temps, b.temps, p, next, count) && n.id != p.id
    ensures Keeps(a, b, n)
  {
  }

  lemma PatchExtends(temps: Temps, t: Table, p: Node, patch: Row, ident: Col, order: seq<Value>, next: nat)
    requires (forall k :: k in order ==> k in t) && forall a :: a in temps ==> a < next
    ensures Extended(temps, PatchTemps(temps, t, p, patch, ident, order, next, |order|), p, next, |order|)
  {
    hide PatchTemps;
    forall a: nat
      ensures var b := PatchTemps(temps, t, p, patch, ident, order, next, |order|);
              && (a in b <==> a in temps || next < a <= next + |order|) && (a in temps ==> b[a] == temps[a])
              && (next < a <= next + |order| ==> b[a].rowId == a && IsRowOf(b[a], p) && b[a].parent.None?)
    {
      PatchTempRow(temps, t, p, patch, ident, order, next, |order|, a);
    }
  }

  lemma BeforeNext(x: Request)
    requires IsOrderly(x)
    ensures forall a :: a in x.s.temps ==> a < x.nextRowID + 1
  {
  }

  lemma PatchKeeps(env: Env, x: Request, p: Node, patch: Row, order: seq<Value>, n: Node)
    requires IsOrderly(x) && p.id == x.nextNodeID && n.id < x.nextNodeID
             && PatchNext(env, x, p, patch, order, false).Some?
    ensures var y := PatchNext(env, x, p, patch, order, false).value; IsOrderly(y) && Later(x, y) && Keeps(x.s, y.s, n)
  {
    hide Movable, Patched, PatchTemps, IsOrderly, JoinNodes, Extended, Keeps;
    var t, next, y := TableOf(x.s.db, p.rel), x.nextRowID + 1, PatchNext(env, x, p, patch, order, false).value;
    BeforeNext(x);
    PatchExtends(x.s.temps, t, p, patch, env.ident(p.rel), order, next);
    ExtendedOrderly(x, y, p, next, |order|);
    JoinGrows(x.tn, map[p.rel := {p.id}]);
    ExtendedKeeps(x.s, y.s, p, next, |order|, n);
  }

  /** An item leaves the request in order, the temp rows of earlier nodes alone, and the relations it does not touch. */
  lemma {:induction false} NextKeeps(env: Env, x: Request, it: Item, n: Node)
    requires IsOrderly(x) && n.id < x.nextNodeID && Next(env, x, it).Some?
    ensures var y := Next(env, x, it).value;
            && IsOrderly(y) && Later(x, y) && Keeps(x.s, y.s, n)
            && forall rel :: !Touches(it, rel) ==> TableOf(y.s.db, rel) == TableOf(x.s.db, rel)
    decreases it
  {
    hide Orderly, GeneralNext, Denormalize, Numbered, Run, FastTemps, FastEnv, SiteIn, Patched;
    var y := Next(env, x, it).value;
    match it
    case General(t, items) =>
      DenormalizeRows(env, t, items, x.nextRowID);
      GeneralKeeps(env, x, t, Denormalize(env, t, items, x.nextRowID).rows, n);
      assert forall rel :: Touches(it, rel) <==> Touches(General(t, []), rel);
    case Fast(f, items) =>
      StillOrderly(x, y);
      FastTouches(env, x, f, Denormalize(env, f, items, 0).rows);
    case Patch(p, patch, order, fast) =>
      if fast {
        StillOrderly(x, y);
      } else {
        PatchKeeps(env, x, p, patch, order, n);
      }
    case Remove(_, _) => StillOrderly(x, y);
    case Undone(item) =>
      NextKeeps(env, x, item, n);
      StillOrderly(x, Next(env, x, item).value);
  }

  lemma FastTouches(env: Env, x: Request, n: Node, rows: seq<TempRow>)
    requires Flat(n) && FastNext(env, x, n, rows).Some?
    ensures forall rel :: rel != n.rel ==> TableOf(FastNext(env, x, n, rows).value.s.db, rel) == TableOf(x.s.db, rel)
  {
    hide Resolved, UpsertTable, InsertNew, UpdateTable, DistinctIdents, Idents, WriteBack, KeyColumns, SetColumns,
         InsertColumns, FastTemps, FastEnv, Found;
  }

  lemma {:induction false} AfterKeeps(env: Env, x: Request, later: seq<Item>, n: Node)
    requires IsOrderly(x) && n.id < x.nextNodeID && After(env, x, later).Some?
    ensures var z := After(env, x, later).value;
            && IsOrderly(z) && Later(x, z) && Keeps(x.s, z.s, n)
            && ((forall it :: it in later ==> !Touches(it, n.rel)) ==> TableOf(z.s.db, n.rel) == TableOf(x.s.db, n.rel))
    decreases |later|
  {
    hide IsOrderly, Next, Keeps, Touches, TableOf;
    if later == [] {
      KeepsSelf(x.s, n);
    } else {
      var y := Next(env, x, later[0]).value;
      NextKeeps(env, x, later[0], n);
      AfterKeeps(env, y, later[1..], n);
      KeepsTwice(x.s, y.s, After(env, x, later).value.s, n);
    }
  }

  lemma KeepsSelf(s: State, n: Node)
    ensures Keeps(s, s, n)
  {
  }

  // ---- tables stay well kept --------------------------------------------------------------------------------------

  lemma StepKept(env: Env, s: State, tn: Nodes, st: Statement, rel: Rel)
    requires Step(env, s, tn, st).Some? && WellKept(env, s.db, rel)
    ensures WellKept(env, Step(env, s, tn, st).value.db, rel)
  {
    hide Run, InScope, WriteStatements.Kept;
    if st.Write? {
      RunGrows(env, s, tn, st.site, rel);
      RunNoNull(env, s, tn, st.site, rel);
    }
  }

  lemma {:induction false} ExecKept(env: Env, s: State, tn: Nodes, q: seq<Statement>, rel: Rel)
    requires Exec(env, s, tn, q).Some? && WellKept(env, s.db, rel)
    ensures WellKept(env, Exec(env, s, tn, q).value.db, rel)
    decreases |q|
  {
    hide Step, WellKept;
    if q != [] {
      StepKept(env, s, tn, q[0], rel);
      ExecKept(env, Step(env, s, tn, q[0]).value, tn, q[1..], rel);
    }
  }

  lemma FastKept(env: Env, x: Request, n: Node, rows: seq<TempRow>, rel: Rel)
    requires FastNext(env, x, n, rows).Some? && WellKept(env, x.s.db, rel)
    ensures WellKept(env, FastNext(env, x, n, rows).value.s.db, rel)
  {
    hide Run, FastTemps, Keyed, TableOf;
    if rows != [] {
      RunGrows(FastEnv(env, x.nextRowID), State(x.s.db, FastTemps(rows)), FastNodes(n), Site(n, Root), rel);
      RunNoNull(FastEnv(env, x.nextRowID), State(x.s.db, FastTemps(rows)), FastNodes(n), Site(n, Root), rel);
    }
  }

  lemma PatchKept(env: Env, x: Request, n: Node, patch: Row, order: seq<Value>, fast: bool, rel: Rel)
    requires PatchNext(env, x, n, patch, order, fast).Some? && WellKept(env, x.s.db, rel)
    ensures WellKept(env, PatchNext(env, x, n, patch, order, fast).value.s.db, rel)
  {
    hide Movable, Patched, PatchTemps, JoinNodes, Keyed;
    if rel == n.rel {
      PatchedKept(TableOf(x.s.db, rel), patch, env.ident(rel), order, |order|);
    }
  }

  /** No item breaks a table. */
  lemma {:induction false} NextKept(env: Env, x: Request, it: Item, rel: Rel)
    requires Next(env, x, it).Some? && WellKept(env, x.s.db, rel)
    ensures WellKept(env, Next(env, x, it).value.s.db, rel)
    decreases it
  {
    hide FastNext, PatchNext, Exec, Denormalize, Numbered, Flat, Load, JoinNodes, NodesOf;
    match it
    case General(t, items) =>
      var rows := Denormalize(env, t, items, x.nextRowID).rows;
      ExecKept(env, Begun(x, rows).s, Begun(x, rows).tn, Queue(t, NodesWithRows(rows)), rel);
    case Fast(n, items) => FastKept(env, x, n, Denormalize(env, n, items, 0).rows, rel);
    case Patch(n, patch, order, fast) => PatchKept(env, x, n, patch, order, fast, rel);
    case Remove(_, _) =>
    case Undone(item) => NextKept(env, x, item, rel);
  }

  lemma {:induction false} AfterKept(env: Env, x: Request, later: seq<Item>, rel: Rel)
    requires After(env, x, later).Some? && WellKept(env, x.s.db, rel)
    ensures WellKept(env, After(env, x, later).value.s.db, rel)
    decreases |later|
  {
    hide Next, WellKept;
    if later != [] {
      NextKept(env, x, later[0], rel);
      AfterKept(env, Next(env, x, later[0]).value, later[1..], rel);
    }
  }

  // ---- a flat write in its request --------------------------------------------------------------------------------

  lemma FlatHolds(env: Env, x: Request, n: Node, items: seq<Json>)
    requires IsOrderly(x) && Numbered(n, x.nextNodeID) && Flat(n) && Denormalize(env, n, items, x.nextRowID).Rows?
    ensures var rows := Denormalize(env, n, items, x.nextRowID).rows;
            Holds(Begun(x, rows).s.temps, Begun(x, rows).tn, n, rows, x.nextRowID)
  {
    hide Load, JoinNodes, Denormalize, Ready, PayloadRows, Owns, Orderly, Numbered, NodesOf, Holds, SameFlat, Flat;
    var rows := Denormalize(env, n, items, x.nextRowID).rows;
    var b := Begun(x, rows);
    DenormalizeRows(env, n, items, x.nextRowID);
    BeforeIds(x, n);
    LoadReady(n, x.nextNodeID, x.nextRowID, x.s.temps, x.tn, rows, NodesOf(rows));
    RootOwns(n, b.s.temps, b.tn, NodesWithRows(rows));
    LoadedAll(n, x.s.temps, rows, x.nextRowID);
    FlatRows(env, n, items, x.nextRowID, x.nextRowID);
    LoadHolds(n, x.s.temps, b.s.temps, b.tn, rows, x.nextRowID);
  }

  lemma LoadHolds(n: Node, temps: Temps, all: Temps, tn: Nodes, rows: seq<TempRow>, base: nat)
    requires Owns(tn, all, n) && (forall a :: a in temps ==> temps[a].node != n.id)
             && SameFlat(n, rows, rows, base, base)
    requires forall a :: a in all <==> a in temps || base <= a < base + |rows|
    requires forall a :: (base <= a < base + |rows| ==> all[a] == rows[a - base]) && (a in temps ==> all[a] == temps[a])
    ensures Holds(all, tn, n, rows, base)
  {
    hide Owns;
    forall i | 0 <= i < |rows| ensures RowAt(all, n, rows[i], base + i) {
      assert all[base + i] == rows[i];
    }
  }

  lemma BeforeIds(x: Request, n: Node)
    requires IsOrderly(x) && Numbered(n, x.nextNodeID) && Flat(n)
    ensures !n.mode.READONLY? && forall a :: a in x.s.temps ==> a < x.nextRowID && x.s.temps[a].node != n.id
  {
  }

  lemma RootOwns(n: Node, temps: Temps, tn: Nodes, pop: set<nat>)
    requires Ready(n, temps, tn, pop) && !n.mode.READONLY?
    ensures Owns(tn, temps, n)
  {
    assert SiteIn(n, Root, Site(n, Root));
  }

  lemma FlatQueue(n: Node, pop: set<nat>)
    requires Flat(n)
    ensures Queue(n, pop) == if n.id in pop then [Write(Site(n, Root))] else []
  {
    assert Plan1All([], Out(n), pop) == [] && Plan1All([], In(n), pop) == [];
    assert Plan2All([], Out(n), pop) == [] && Plan2All([], In(n), pop) == [];
  }

  /** The general path of a flat write is its one statement. */
  lemma FlatNext(env: Env, x: Request, n: Node, items: seq<Json>)
    requires IsOrderly(x) && Numbered(n, x.nextNodeID) && Flat(n) && Denormalize(env, n, items, x.nextRowID).Rows?
    ensures var rows := Denormalize(env, n, items, x.nextRowID).rows;
            var b := Begun(x, rows);
            var r := GeneralRun(env, b.s, b.tn, n, rows);
            Next(env, x, General(n, items))
            == if r.None? then None else Some(Request(x.nextNodeID + 1, x.nextRowID + |rows|, b.tn, r.value))
  {
    hide Load, JoinNodes, Denormalize, Run, Orderly, PayloadRows, Queue, NodesOf;
    var rows := Denormalize(env, n, items, x.nextRowID).rows;
    var b := Begun(x, rows);
    FlatQueue(n, NodesWithRows(rows));
    FlatRows(env, n, items, x.nextRowID, x.nextRowID);
    RunOne(env, b.s, b.tn, Site(n, Root));
    assert CountAll([]) == 0;
    if rows != [] {
      assert rows[0].node in NodesWithRows(rows);
    }
  }

  /** What the fast path answers. */
  ghost function FastAnswer(env: Env, x: Request, n: Node, items: seq<Json>, q: Query, w: World,
                            seen: Sight): Option<Written>
    requires Denormalize(env, n, items, 0).Rows?
  {
    FastWrite(FastEnv(env, x.nextRowID), x.s.db, n, q, w, seen, Denormalize(env, n, items, 0).rows)
  }

  /** What the general path answers once the items after it have run as well. */
  ghost function GeneralAnswer(env: Env, x: Request, n: Node, items: seq<Json>, later: seq<Item>, q: Query, w: World,
                               seen: Sight): Option<Written>
    requires Denormalize(env, n, items, x.nextRowID).Rows?
  {
    var y := Next(env, x, General(n, items));
    if y.None? then None
    else
      var z := After(env, y.value, later);
      if z.None? then None
      else
        var rows := Denormalize(env, n, items, x.nextRowID).rows;
        GeneralWrite(env, Begun(x, rows).s, Begun(x, rows).tn, n, q, w, seen, rows, z.value.nextRowID, z.value.s)
  }

  /** An eligible flat write, in an orderly request, with the items that follow it. */
  ghost predicate Writable(env: Env, x: Request, n: Node, items: seq<Json>, later: seq<Item>) {
    && IsOrderly(x) && Numbered(n, x.nextNodeID) && Flat(n) && WellKept(env, x.s.db, n.rel)
    && var d := Denormalize(env, n, items, x.nextRowID);
    && d.Rows? && Distinguished(env, Begun(x, d.rows).s, Begun(x, d.rows).tn, n)
    && var y := Next(env, x, General(n, items));
       y.Some? ==> After(env, y.value, later).Some?
  }

  /** The rows are refused, told from their identities and the keys of the table. */
  ghost predicate Refuses(env: Env, x: Request, n: Node, items: seq<Json>)
    requires Denormalize(env, n, items, x.nextRowID).Rows?
  {
    var b := Begun(x, Denormalize(env, n, items, x.nextRowID).rows);
    Clash(env, TableOf(x.s.db, n.rel), n, Resolved(env, b.s.temps, b.tn, Site(n, Root), Columns(env, n)))
  }

  /** What the rest of the request finds after the item, and what it leaves. */
  lemma InRequest(env: Env, x: Request, n: Node, items: seq<Json>, later: seq<Item>)
    requires Writable(env, x, n, items, later) && Next(env, x, General(n, items)).Some?
    ensures var rows := Denormalize(env, n, items, x.nextRowID).rows;
            var b, y := Begun(x, rows), Next(env, x, General(n, items)).value;
            var z := After(env, y, later).value;
            && GeneralRun(env, b.s, b.tn, n, rows) == Some(y.s) && Holds(b.s.temps, b.tn, n, rows, x.nextRowID)
            && x.nextRowID + |rows| <= z.nextRowID && Keeps(y.s, z.s, n) && WellKept(env, z.s.db, n.rel)
            && ((forall it :: it in later ==> !Touches(it, n.rel)) ==> TableOf(z.s.db, n.rel) == TableOf(y.s.db, n.rel))
  {
    hide Numbered, Orderly, Denormalize, Load, JoinNodes, Next, Holds, Keeps, TableOf, Touches, Distinguished, Flat,
         WellKept, GeneralRun, NodesOf;
    var rows := Denormalize(env, n, items, x.nextRowID).rows;
    var y := Next(env, x, General(n, items)).value;
    FlatHolds(env, x, n, items);
    FlatNext(env, x, n, items);
    OwnID(env, x, n, items);
    AfterKeeps(env, y, later, n);
    NextKept(env, x, General(n, items), n.rel);
    AfterKept(env, y, later, n.rel);
  }

  lemma OwnID(env: Env, x: Request, n: Node, items: seq<Json>)
    requires IsOrderly(x) && Numbered(n, x.nextNodeID) && Flat(n) && Next(env, x, General(n, items)).Some?
    ensures var y := Next(env, x, General(n, items)).value; IsOrderly(y) && n.id == x.nextNodeID < y.nextNodeID
  {
    hide Orderly, GeneralNext, Denormalize;
    var rows := Denormalize(env, n, items, x.nextRowID).rows;
    DenormalizeRows(env, n, items, x.nextRowID);
    FlatNext(env, x, n, items);
    GeneralOrderly(env, x, n, rows);
  }

  lemma GeneralOrderly(env: Env, x: Request, t: Node, rows: seq<TempRow>)
    requires IsOrderly(x) && Numbered(t, x.nextNodeID) && !t.mode.READONLY? && PayloadRows(t, rows, x.nextRowID)
    requires GeneralNext(env, x, t, rows).Some?
    ensures IsOrderly(GeneralNext(env, x, t, rows).value)
  {
    hide Numbered, Count, PayloadRows, Load, JoinNodes, Exec, Queue, Ready, Orderly, SameRows, NodesOf;
    var b := Begun(x, rows);
    LoadOrderly(t, x.nextNodeID, x.nextRowID, x.s.temps, x.tn, rows, NodesOf(rows));
    LoadReady(t, x.nextNodeID, x.nextRowID, x.s.temps, x.tn, rows, NodesOf(rows));
    RunKeeps(env, t, b.s, b.tn, NodesWithRows(rows));
    var y := GeneralNext(env, x, t, rows).value;
    OrderlyFrame(y.nextNodeID, y.nextRowID, b.s.temps, y.s.temps, b.tn);
  }

  /**
   For every eligible flat write, in a request whose later items leave the rows under its keys as they are: both paths
   leave the same table and give the same response, or are both refused, if and only if their orders agree.
   */
  lemma FastPath(env: Env, x: Request, n: Node, items: seq<Json>, later: seq<Item>, q: Query, o: Options, w: World,
                 fastSees: Sight, generalSees: Sight)
    requires Writable(env, x, n, items, later) && EligibleQuery(q, o)
    requires var y := Next(env, x, General(n, items));
             y.Some? ==> Undisturbed(env, y.value.s, After(env, y.value, later).value.s, n)
    ensures Denormalize(env, n, items, 0).Rows?
    ensures FastAnswer(env, x, n, items, q, w, fastSees) == GeneralAnswer(env, x, n, items, later, q, w, generalSees)
            <==> Agree(q, FastOrder(q, n.mode), Refuses(env, x, n, items),
                       Denormalize(env, n, items, x.nextRowID).rows == [])
  {
    hide Denormalize, Numbered, Orderly, WellKept, Distinguished, Next, After, GeneralWrite, FastWrite, Touches, Flat,
         Holds, GeneralRun, Load, JoinNodes, NodesOf, Clash, EligibleQuery, Agree, FastEnv, FastOrder, ReadsAlike,
         TableOf, Columns, Undisturbed;
    var rows := Denormalize(env, n, items, x.nextRowID).rows;
    var b, y := Begun(x, rows), Next(env, x, General(n, items));
    FlatRows(env, n, items, x.nextRowID, 0);
    SameFast(FastEnv(env, x.nextRowID), x.s.db, n, q, w, fastSees, rows, Denormalize(env, n, items, 0).rows,
             x.nextRowID);
    FlatHolds(env, x, n, items);
    FlatNext(env, x, n, items);
    if y.Some? {
      InRequest(env, x, n, items, later);
      var z := After(env, y.value, later).value;
      UndisturbedReads(env, y.value.s, z.s, n, z.nextRowID, q, o, w, generalSees);
      FastRefinesGeneral(env, b.s, b.tn, n, q, o, w, fastSees, generalSees, rows, x.nextRowID, z.nextRowID, z.s);
    } else {
      FastRefinesGeneral(env, b.s, b.tn, n, q, o, w, fastSees, generalSees, rows, x.nextRowID, x.nextRowID + |rows|,
                         b.s);
      NoneRefused(env, b.s, b.tn, n, q, w, generalSees, rows, x.nextRowID + |rows|, b.s);
    }
  }

  lemma NoneRefused(env: Env, s: State, tn: Nodes, n: Node, q: Query, w: World, seen: Sight, rows: seq<TempRow>,
                    hi: nat, end: State)
    requires GeneralRun(env, s, tn, n, rows).None?
    ensures GeneralWrite(env, s, tn, n, q, w, seen, rows, hi, end).None?
  {
  }

  lemma UndisturbedReads(env: Env, r: State, end: State, n: Node, hi: nat, q: Query, o: Options, w: World, seen: Sight)
    requires Keeps(r, end, n) && Undisturbed(env, r, end, n) && EligibleQuery(q, o)
    ensures ReadsAlike(env, r, end, n, hi, q.where, w, seen)
  {
    hide Keeps, Undisturbed, ReadBack, Passing, EligibleQuery, AllAlike;
    ReadBackAlike(env, r, end, n, hi);
    EligibleWhere(q, o);
    PassingAlike(q.where, w, seen, ReadBack(env, r, n, 0, hi), ReadBack(env, end, n, 0, hi));
  }

  /** Items that write other relations, or are rolled back, disturb nothing. */
  lemma Untouched(env: Env, x: Request, n: Node, later: seq<Item>)
    requires IsOrderly(x) && n.id < x.nextNodeID && After(env, x, later).Some? && forall it ::
               it in later ==> !Touches(it, n.rel)
    ensures Undisturbed(env, x.s, After(env, x, later).value.s, n)
  {
    hide Orderly, After, Touches, TableOf, Keeps;
    AfterKeeps(env, x, later, n);
  }

  /**
   With any later items: every eligible query without a where whose orders agree is answered the same by both paths if
   and only if the rows under the node's keys are at the end what its own statement left.
   */
  lemma DisturbedIff(env: Env, x: Request, n: Node, items: seq<Json>, later: seq<Item>, w: World, fastSees: Sight,
                     generalSees: Sight)
    requires Writable(env, x, n, items, later) && Next(env, x, General(n, items)).Some?
    requires Denormalize(env, n, items, x.nextRowID).rows != []
    ensures Denormalize(env, n, items, 0).Rows?
    ensures AlwaysSame(env, x, n, items, later, w, fastSees, generalSees)
            <==> var y := Next(env, x, General(n, items)).value;
                 Undisturbed(env, y.s, After(env, y, later).value.s, n)
  {
    hide Denormalize, Numbered, Orderly, WellKept, Distinguished, Next, After, GeneralWrite, FastWrite, Touches, Flat,
         Holds, Load, JoinNodes, NodesOf, EligibleQuery, FastEnv, ReadsAlike, TableOf, Run, Undisturbed, Keeps,
         KeysApart, Allowed;
    var rows := Denormalize(env, n, items, x.nextRowID).rows;
    var b, y := Begun(x, rows), Next(env, x, General(n, items)).value;
    var z := After(env, y, later).value;
    InRequest(env, x, n, items, later);
    FlatRows(env, n, items, x.nextRowID, 0);
    RunApart(env, b.s, b.tn, n, rows, x.nextRowID, z.nextRowID);
    EveryQuery(env, b.s, b.tn, n, None, w, fastSees, generalSees, rows, x.nextRowID, z.nextRowID, z.s);
    AlikeIffUndisturbed(env, y.s, z.s, n, z.nextRowID, w, generalSees);
    forall q, o | EligibleQuery(q, o)
      ensures FastAnswer(env, x, n, items, q, w, fastSees)
              == FastWrite(FastEnv(env, x.nextRowID), b.s.db, n, q, w, fastSees, rows)
    {
      SameFast(FastEnv(env, x.nextRowID), x.s.db, n, q, w, fastSees, rows, Denormalize(env, n, items, 0).rows,
               x.nextRowID);
    }
  }

  ghost predicate AlwaysSame(env: Env, x: Request, n: Node, items: seq<Json>, later: seq<Item>, w: World,
                             fastSees: Sight, generalSees: Sight)
    requires Denormalize(env, n, items, 0).Rows? && Denormalize(env, n, items, x.nextRowID).Rows?
  {
    forall q, o :: EligibleQuery(q, o) && q.where == None && Allowed(q, GeneralOrder(q)) ==>
      FastAnswer(env, x, n, items, q, w, fastSees) == GeneralAnswer(env, x, n, items, later, q, w, generalSees)
  }

  lemma SameFast(env: Env, db: map<Rel, Table>, n: Node, q: Query, w: World, seen: Sight, x: seq<TempRow>,
                 y: seq<TempRow>, base: nat)
    requires SameFlat(n, x, y, base, 0)
    ensures FastWrite(env, db, n, q, w, seen, x) == FastWrite(env, db, n, q, w, seen, y)
  {
    hide Run, Resolved, Respond, Returned, Columns, FastTemps, SameFlat;
    SameParameter(x, y, n, base);
  }

  lemma SameParameter(x: seq<TempRow>, y: seq<TempRow>, n: Node, base: nat)
    requires SameFlat(n, x, y, base, 0)
    ensures FastTemps(x) == FastTemps(y) && (x == [] <==> y == []) && |x| == |y|
  {
    forall a | a in Ordinals(|x|) ensures x[a - 1].(rowId := a) == y[a - 1].(rowId := a) {
      assert x[a - 1] == y[a - 1].(rowId := base + (a - 1));
    }
  }

  // ---- a where-driven update in its request -----------------------------------------------------------------------

  /**
   A where-driven update, in a request whose later items leave the rows under its keys as they are: both paths update
   the same rows and give the same response, if and only if their orders agree.
   */
  lemma UpdatePath(env: Env, x: Request, n: Node, patch: Row, order: seq<Value>, later: seq<Item>, q: Query, o: Options,
                   w: World, fastSees: Sight, generalSees: Sight)
    requires IsOrderly(x) && n.id == x.nextNodeID && EligibleQuery(q, o)
             && Scan(TableOf(x.s.db, n.rel), q, w, generalSees, order)
    requires PatchNext(env, x, n, patch, order, false).Some?
             && After(env, PatchNext(env, x, n, patch, order, false).value, later).Some?
    requires var y := PatchNext(env, x, n, patch, order, false).value;
             Undisturbed(env, y.s, After(env, y, later).value.s, n)
    ensures Scan(TableOf(x.s.db, n.rel), q, w, fastSees, order)
    ensures var z := After(env, PatchNext(env, x, n, patch, order, false).value, later).value;
            FastUpdate(env, x.s.db, n, q, w, fastSees, patch, order)
            == GeneralUpdate(env, x.s, n, q, w, generalSees, patch, order, z.nextRowID, z.s)
            <==> Agree(q, FastUpdateOrder(q), false, false)
  {
    hide Orderly, EligibleQuery, Scan, After, Touches, Movable, Patched, PatchTemps, FastUpdate, GeneralUpdate, TableOf,
         ReadsAlike, JoinNodes, Agree, Keeps, Undisturbed;
    var y := PatchNext(env, x, n, patch, order, false).value;
    var z := After(env, y, later).value;
    OwnPatch(env, x, n, patch, order);
    AfterKeeps(env, y, later, n);
    UndisturbedReads(env, y.s, z.s, n, z.nextRowID, q, o, w, generalSees);
    UpdateWhereSame(env, x.s, n, q, o, w, fastSees, generalSees, patch, order, x.nextRowID + 1, z.nextRowID, z.s);
  }

  lemma OwnPatch(env: Env, x: Request, n: Node, patch: Row, order: seq<Value>)
    requires IsOrderly(x) && n.id == x.nextNodeID && PatchNext(env, x, n, patch, order, false).Some?
    ensures IsOrderly(PatchNext(env, x, n, patch, order, false).value) && Fresh(x.s.temps, n, x.nextRowID + 1)
  {
    hide Movable, Patched, PatchTemps, JoinNodes, Extended, HasRow;
    BeforeNext(x);
    PatchExtends(x.s.temps, TableOf(x.s.db, n.rel), n, patch, env.ident(n.rel), order, x.nextRowID + 1);
    ExtendedOrderly(x, PatchNext(env, x, n, patch, order, false).value, n, x.nextRowID + 1, |order|);
  }
}
