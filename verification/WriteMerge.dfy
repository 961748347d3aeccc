/**
 What a write does: the row ids and node ids of a request stay apart across its write items, and a merged
 relation ends up holding, under each parent of the payload, exactly the payload's children.
 */
module WriteMerge {
  import opened Wrappers
  import opened WriteTree
  import opened WriteStatements
  import opened WritePhases

  type Nodes = map<Rel, set<nat>>

  // ---- running the queue -------------------------------------------------------------------------------

  /** The statements in order; the first one refused ends the run. */
  ghost function Exec(env: Env, s: State, tn: Nodes, q: seq<Statement>): Option<State>
    decreases |q|
  {
    if q == [] then Some(s)
    else
      var r := Step(env, s, tn, q[0]);
      if r.None? then None else Exec(env, r.value, tn, q[1..])
  }

  ghost function Step(env: Env, s: State, tn: Nodes, st: Statement): Option<State> {
    match st
    case Write(site) => Run(env, s, tn, site)
    case Delete(site) => Some(RunDelete(env, s, tn, site))
  }

  lemma {:induction false} ExecSplit(env: Env, s: State, tn: Nodes, a: seq<Statement>, b: seq<Statement>)
    ensures Exec(env, s, tn, a + b) == var m := Exec(env, s, tn, a); if m.None? then None else Exec(env, m.value, tn, b)
    decreases |a|
  {
    hide Step;
    if a == [] {
      assert a + b == b;
    } else {
      assert (a + b)[0] == a[0] && (a + b)[1..] == a[1..] + b;
      var r := Step(env, s, tn, a[0]);
      if r.Some? {
        ExecSplit(env, r.value, tn, a[1..], b);
      }
    }
  }

  ghost predicate AllOwn(tn: Nodes, temps: Temps, q: seq<Statement>) {
    forall st :: st in q ==> Owns(tn, temps, st.site.n)
  }

  /** Statements leave the tables of other relations and the temp rows of other nodes alone. */
  lemma {:induction false} ExecFrame(env: Env, s: State, tn: Nodes, q: seq<Statement>)
    requires AllOwn(tn, s.temps, q) && Exec(env, s, tn, q).Some?
    ensures var s' := Exec(env, s, tn, q).value;
            && SameRows(s.temps, s'.temps)
            && (forall rel :: (forall st :: st in q ==> st.site.n.rel != rel) ==>
                                TableOf(s'.db, rel) == TableOf(s.db, rel))
            && (forall a :: a in s.temps && (forall st :: st in q && st.Write? ==> st.site.n.id != s.temps[a].node) ==>
                              s'.temps[a] == s.temps[a])
    decreases |q|
  {
    hide Run, RunDelete, TableOf;
    if q != [] {
      var s1 := Step(env, s, tn, q[0]).value;
      assert q[0] in q;
      StepFrame(env, s, tn, q[0]);
      forall st | st in q[1..] ensures Owns(tn, s1.temps, st.site.n) {
        assert st in q;
        SameRowsOwn(tn, s.temps, s1.temps, st.site.n);
      }
      ExecFrame(env, s1, tn, q[1..]);
      assert forall st :: st in q[1..] ==> st in q;
    }
  }

  lemma StepFrame(env: Env, s: State, tn: Nodes, st: Statement)
    requires Owns(tn, s.temps, st.site.n) && Step(env, s, tn, st).Some?
    ensures var s' := Step(env, s, tn, st).value;
            && SameRows(s.temps, s'.temps)
            && (forall rel :: rel != st.site.n.rel ==> TableOf(s'.db, rel) == TableOf(s.db, rel))
            && (forall a :: a in s.temps && (st.Delete? || st.site.n.id != s.temps[a].node) ==>
                              s'.temps[a] == s.temps[a])
  {
    hide Run, Owns;
    if st.Write? {
      RunFrame(env, s, tn, st.site);
    }
  }

  // ---- one request, several write items ----------------------------------------------------------------------

  /**
   Between write items: ids are taken once, parents come first, and the node sets of the temp tables hold every node
   with rows.
   */
  ghost predicate Orderly(nextNodeID: nat, nextRowID: nat, temps: Temps, tn: Nodes) {
    && (forall a :: a in temps ==> a < nextRowID && temps[a].rowId == a && temps[a].node < nextNodeID)
    && (forall a, b :: a in temps && b in temps && temps[a].node == temps[b].node ==> temps[a].rel == temps[b].rel)
    && (forall a :: a in temps && temps[a].parent.Some? ==> temps[a].parent.value in temps && temps[a].parent.value < a)
    && (forall rel, id :: HasRow(temps, rel, id) ==> id in NodesIn(tn, rel))
  }

  ghost predicate HasRow(temps: Temps, rel: Rel, id: nat) {
    exists a :: a in temps && temps[a].rel == rel && temps[a].node == id
  }

  /** The rows of an item join those of the items before it, each under its row id. */
  function Load(temps: Temps, rows: seq<TempRow>): Temps {
    if rows == [] then temps
    else
      var last := rows[|rows| - 1];
      Load(temps, rows[..|rows| - 1])[last.rowId := last]
  }

  function JoinNodes(known: Nodes, more: Nodes): Nodes {
    map rel | rel in known.Keys + more.Keys :: NodesIn(known, rel) + NodesIn(more, rel)
  }

  /** The temp rows are as the statements of the tree need them. */
  ghost predicate Ready(t: Node, temps: Temps, tn: Nodes, pop: set<nat>) {
    && (forall s :: SiteIn(t, Root, s) ==> Owns(tn, temps, s.n))
    && (forall s, a :: SiteIn(t, Root, s) && a in temps && temps[a].node == s.n.id && !s.link.Root? ==>
                         PointsAt(temps, a, s.link.parent))
    && (forall s :: SiteIn(t, Root, s) ==> (s.n.id in pop <==> exists a :: a in temps && temps[a].node == s.n.id))
  }

  ghost predicate PointsAt(temps: Temps, a: nat, p: Node)
    requires a in temps
  {
    temps[a].parent.Some? && temps[a].parent.value in temps && IsRowOf(temps[temps[a].parent.value], p)
  }

  /** An edge of the tree is a site and its parent's. */
  lemma {:induction false} EdgeSite(t: Node, link: Link, p: Node, c: Node)
    requires Edge(t, p, c)
    ensures SiteIn(t, link, Site(c, In(p))) || SiteIn(t, link, Site(c, Out(p)))
    decreases t
  {
    if p == t && !c.mode.READONLY? && c in t.outgoing {
      MemberSite(t.outgoing, Out(t), c, Site(c, Out(t)));
    } else if p == t && !c.mode.READONLY? && c in t.incoming {
      MemberSite(t.incoming, In(t), c, Site(c, In(t)));
    } else if exists i :: 0 <= i < |t.outgoing| && Edge(t.outgoing[i], p, c) {
      var i :| 0 <= i < |t.outgoing| && Edge(t.outgoing[i], p, c);
      var k := t.outgoing[i];
      EdgeSite(k, Out(t), p, c);
      MemberSite(t.outgoing, Out(t), k, if SiteIn(k, Out(t), Site(c, In(p))) then Site(c, In(p)) else Site(c, Out(p)));
    } else {
      var i :| 0 <= i < |t.incoming| && Edge(t.incoming[i], p, c);
      var k := t.incoming[i];
      EdgeSite(k, In(t), p, c);
      MemberSite(t.incoming, In(t), k, if SiteIn(k, In(t), Site(c, In(p))) then Site(c, In(p)) else Site(c, Out(p)));
    }
  }

  lemma {:induction false} MemberSite(ts: seq<Node>, link: Link, k: Node, s: Site)
    requires k in ts && SiteIn(k, link, s)
    ensures SiteInAll(ts, link, s)
    decreases ts
  {
    hide SiteIn;
    if k != ts[0] {
      assert k in ts[1..];
      MemberSite(ts[1..], link, k, s);
    }
  }

  /** A row of the payload belongs to the one site of its node id, under a row of that site's parent. */
  lemma RowSite(t: Node, rows: seq<TempRow>, base: nat, i: nat, from: nat) returns (s: Site)
    requires Numbered(t, from) && !t.mode.READONLY? && PayloadRows(t, rows, base) && i < |rows|
    ensures SiteIn(t, Root, s) && IsRowOf(rows[i], s.n) && from <= rows[i].node < from + Count(t)
    ensures s.link.Root? ==> rows[i].parent.None?
    ensures !s.link.Root? ==> rows[i].parent.Some? && base <= rows[i].parent.value < base + i
                              && IsRowOf(rows[rows[i].parent.value - base], s.link.parent)
  {
    hide Edge, Numbered;
    if IsRowOf(rows[i], t) && rows[i].parent.None? {
      s := Site(t, Root);
    } else {
      var p, c :| Edge(t, p, c) && LinkedBy(p, c, rows, base, i);
      EdgeSite(t, Root, p, c);
      s := if SiteIn(t, Root, Site(c, In(p))) then Site(c, In(p)) else Site(c, Out(p));
    }
    SiteRange(t, Root, s, from);
  }

  lemma {:induction false} LoadedRow(temps: Temps, rows: seq<TempRow>, base: nat, a: nat)
    requires Consecutive(rows, base)
    ensures a in Load(temps, rows) <==> a in temps || base <= a < base + |rows|
    ensures base <= a < base + |rows| ==> Load(temps, rows)[a] == rows[a - base]
    ensures a in temps && !(base <= a < base + |rows|) ==> Load(temps, rows)[a] == temps[a]
  {
    if rows != [] {
      LoadedRow(temps, rows[..|rows| - 1], base, a);
    }
  }

  /** Loading the rows of one more write item keeps the request orderly. */
  lemma LoadOrderly(t: Node, nextNodeID: nat, nextRowID: nat, temps: Temps, tn: Nodes, rows: seq<TempRow>, more: Nodes)
    requires Orderly(nextNodeID, nextRowID, temps, tn) && Numbered(t, nextNodeID) && !t.mode.READONLY?
    requires PayloadRows(t, rows, nextRowID) && forall rel :: NodesIn(more, rel) == TableNodes(rows, rel)
    ensures Orderly(nextNodeID + Count(t), nextRowID + |rows|, Load(temps, rows), JoinNodes(tn, more))
  {
    hide Numbered, Count, Linked, PayloadRows, SiteIn, Load, JoinNodes, HasRow, Orderly, Consecutive;
    var all := Load(temps, rows);
    OrderlyParts(nextNodeID, nextRowID, temps, tn);
    LoadedAll(t, temps, rows, nextRowID);
    NodesExact(temps, rows, nextRowID, tn, more, all);
    PayloadConsecutive(t, rows, nextRowID);
    RowFacts(t, rows, nextRowID, nextNodeID);
    OldAndNew(nextNodeID, nextRowID, temps, tn, rows, all, JoinNodes(tn, more), Count(t));
  }

  lemma OrderlyParts(nextNodeID: nat, nextRowID: nat, temps: Temps, tn: Nodes)
    requires Orderly(nextNodeID, nextRowID, temps, tn)
    ensures forall a :: a in temps ==> a < nextRowID
    ensures forall rel, id :: HasRow(temps, rel, id) ==> id in NodesIn(tn, rel)
  {
  }

  lemma LoadedAll(t: Node, temps: Temps, rows: seq<TempRow>, base: nat)
    requires PayloadRows(t, rows, base) && forall a :: a in temps ==> a < base
    ensures var all := Load(temps, rows);
            && (forall a :: a in all <==> a in temps || base <= a < base + |rows|)
            && (forall a :: (base <= a < base + |rows| ==> all[a] == rows[a - base])
                            && (a in temps ==> all[a] == temps[a]))
  {
    hide Load, Linked;
    forall a: nat
      ensures a in Load(temps, rows) <==> a in temps || base <= a < base + |rows|
      ensures (base <= a < base + |rows| ==> Load(temps, rows)[a] == rows[a - base])
              && (a in temps ==> Load(temps, rows)[a] == temps[a])
    {
      LoadedRow(temps, rows, base, a);
    }
  }

  /** The rows of a payload have the node ids of the tree, one relation for each, and parents among them. */
  lemma RowFacts(t: Node, rows: seq<TempRow>, base: nat, from: nat)
    requires Numbered(t, from) && !t.mode.READONLY? && PayloadRows(t, rows, base)
    ensures forall i :: 0 <= i < |rows| ==> from <= rows[i].node < from + Count(t)
    ensures forall i :: 0 <= i < |rows| && rows[i].parent.Some? ==> base <= rows[i].parent.value < base + i
    ensures forall i, j :: 0 <= i < |rows| && 0 <= j < |rows| && rows[i].node == rows[j].node ==>
                             rows[i].rel == rows[j].rel
  {
    hide Numbered, Count, PayloadRows, SiteIn;
    forall i | 0 <= i < |rows|
      ensures from <= rows[i].node < from + Count(t)
      ensures rows[i].parent.Some? ==> base <= rows[i].parent.value < base + i
    {
      var s := RowSite(t, rows, base, i, from);
    }
    forall i, j | 0 <= i < |rows| && 0 <= j < |rows| && rows[i].node == rows[j].node
      ensures rows[i].rel == rows[j].rel
    {
      var s := RowSite(t, rows, base, i, from);
      var s' := RowSite(t, rows, base, j, from);
      SiteUnique(t, Root, s, s', from);
    }
  }

  lemma OldAndNew(nextNodeID: nat, nextRowID: nat, temps: Temps, tn: Nodes, rows: seq<TempRow>, all: Temps,
                  known: Nodes, count: nat)
    requires Orderly(nextNodeID, nextRowID, temps, tn) && Consecutive(rows, nextRowID)
    requires forall a :: a in all <==> a in temps || nextRowID <= a < nextRowID + |rows|
    requires forall a :: (nextRowID <= a < nextRowID + |rows| ==> all[a] == rows[a - nextRowID])
                         && (a in temps ==> all[a] == temps[a])
    requires forall i :: 0 <= i < |rows| ==> nextNodeID <= rows[i].node < nextNodeID + count
    requires forall i :: 0 <= i < |rows| && rows[i].parent.Some? ==> nextRowID <= rows[i].parent.value < nextRowID + i
    requires forall i, j :: 0 <= i < |rows| && 0 <= j < |rows| && rows[i].node == rows[j].node ==>
                              rows[i].rel == rows[j].rel
    requires forall rel, id :: HasRow(all, rel, id) ==> id in NodesIn(known, rel)
    ensures Orderly(nextNodeID + count, nextRowID + |rows|, all, known)
  {
    hide HasRow, NodesIn;
    forall a | a in all
      ensures a < nextRowID + |rows| && all[a].rowId == a && all[a].node < nextNodeID + count
              && (a !in temps ==> all[a].node >= nextNodeID)
      ensures all[a].parent.Some? ==> all[a].parent.value in all && all[a].parent.value < a
    {
      if a !in temps {
        assert all[a] == rows[a - nextRowID];
      }
    }
  }

  lemma PayloadConsecutive(t: Node, rows: seq<TempRow>, base: nat)
    requires PayloadRows(t, rows, base)
    ensures Consecutive(rows, base)
  {
  }

  lemma NodesExact(temps: Temps, rows: seq<TempRow>, base: nat, tn: Nodes, more: Nodes, all: Temps)
    requires forall rel, id :: HasRow(temps, rel, id) ==> id in NodesIn(tn, rel)
    requires forall rel :: NodesIn(more, rel) == TableNodes(rows, rel)
    requires forall a :: a in all <==> a in temps || base <= a < base + |rows|
    requires forall a :: (base <= a < base + |rows| ==> all[a] == rows[a - base]) && (a in temps ==> all[a] == temps[a])
    ensures forall rel, id :: HasRow(all, rel, id) ==> id in NodesIn(JoinNodes(tn, more), rel)
  {
    forall rel, id | HasRow(all, rel, id) ensures id in NodesIn(JoinNodes(tn, more), rel) {
      assert NodesIn(JoinNodes(tn, more), rel) == NodesIn(tn, rel) + NodesIn(more, rel);
      var a :| a in all && all[a].rel == rel && all[a].node == id;
      if a in temps {
        assert HasRow(temps, rel, id);
      } else {
        assert rows[a - base].node in TableNodes(rows, rel);
      }
    }
  }

  /** Rolling an item back takes its rows away and leaves the request orderly, its ids spent. */
  lemma RolledBack(nextNodeID: nat, nextRowID: nat, temps: Temps, tn: Nodes, base: nat)
    requires Orderly(nextNodeID, nextRowID, temps, tn)
    ensures Orderly(nextNodeID, nextRowID, map a | a in temps && a < base :: temps[a], tn)
  {
    var left := map a | a in temps && a < base :: temps[a];
    forall rel, id | HasRow(left, rel, id) ensures id in NodesIn(tn, rel) {
      var a :| a in left && left[a].rel == rel && left[a].node == id;
      assert HasRow(temps, rel, id);
    }
  }

  /** After loading, every node of the tree selects exactly its own rows, each under a row of its parent. */
  lemma LoadReady(t: Node, nextNodeID: nat, nextRowID: nat, temps: Temps, tn: Nodes, rows: seq<TempRow>, more: Nodes)
    requires Orderly(nextNodeID, nextRowID, temps, tn) && Numbered(t, nextNodeID) && !t.mode.READONLY?
    requires PayloadRows(t, rows, nextRowID) && forall rel :: NodesIn(more, rel) == TableNodes(rows, rel)
    ensures Ready(t, Load(temps, rows), JoinNodes(tn, more), NodesWithRows(rows))
  {
    hide Numbered, Count, Linked, PayloadRows, SiteIn, Load, Orderly, JoinNodes;
    var all := Load(temps, rows);
    var nodes := JoinNodes(tn, more);
    PayloadConsecutive(t, rows, nextRowID);
    LoadOrderly(t, nextNodeID, nextRowID, temps, tn, rows, more);
    forall s, a | SiteIn(t, Root, s) && a in all && all[a].node == s.n.id
      ensures nextRowID <= a < nextRowID + |rows| && all[a].rel == s.n.rel
              && (!s.link.Root? ==> PointsAt(all, a, s.link.parent))
    {
      OwnRow(t, nextNodeID, nextRowID, temps, tn, rows, s, a);
    }
    forall s | SiteIn(t, Root, s) ensures Owns(nodes, all, s.n) {
      OwnsExact(nextNodeID + Count(t), nextRowID + |rows|, all, nodes, s.n);
    }
    forall s | SiteIn(t, Root, s)
      ensures s.n.id in NodesWithRows(rows) <==> exists a :: a in all && all[a].node == s.n.id
    {
      if s.n.id in NodesWithRows(rows) {
        var i :| 0 <= i < |rows| && rows[i].node == s.n.id;
        LoadedRow(temps, rows, nextRowID, nextRowID + i);
        assert all[nextRowID + i].node == s.n.id;
      }
      if exists a :: a in all && all[a].node == s.n.id {
        var a :| a in all && all[a].node == s.n.id;
        LoadedRow(temps, rows, nextRowID, a);
        assert rows[a - nextRowID].node in NodesWithRows(rows);
      }
    }
  }

  lemma OwnsExact(nextNodeID: nat, nextRowID: nat, temps: Temps, tn: Nodes, n: Node)
    requires Orderly(nextNodeID, nextRowID, temps, tn)
    requires forall a :: a in temps && temps[a].node == n.id ==> temps[a].rel == n.rel
    ensures Owns(tn, temps, n)
  {
    forall a | a in temps ensures Selected(tn, n, temps[a]) <==> temps[a].node == n.id {
      if Selected(tn, n, temps[a]) && Sole(tn, n) {
        assert HasRow(temps, n.rel, temps[a].node);
        assert temps[a].node in NodesIn(tn, n.rel);
      }
    }
  }

  lemma OwnRow(t: Node, nextNodeID: nat, nextRowID: nat, temps: Temps, tn: Nodes, rows: seq<TempRow>, s: Site, a: nat)
    requires Orderly(nextNodeID, nextRowID, temps, tn) && Numbered(t, nextNodeID) && !t.mode.READONLY?
             && PayloadRows(t, rows, nextRowID)
    requires SiteIn(t, Root, s) && a in Load(temps, rows) && Load(temps, rows)[a].node == s.n.id
    ensures nextRowID <= a < nextRowID + |rows|
    ensures Load(temps, rows)[a].rel == s.n.rel && (!s.link.Root? ==> PointsAt(Load(temps, rows), a, s.link.parent))
  {
    hide Numbered, Count, Linked, PayloadRows, SiteIn, Load;
    PayloadConsecutive(t, rows, nextRowID);
    SiteRange(t, Root, s, nextNodeID);
    LoadedRow(temps, rows, nextRowID, a);
    var i := a - nextRowID;
    var s' := RowSite(t, rows, nextRowID, i, nextNodeID);
    SiteUnique(t, Root, s, s', nextNodeID);
    if !s.link.Root? {
      LoadedRow(temps, rows, nextRowID, rows[i].parent.value);
    }
  }
}
