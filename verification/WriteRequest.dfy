/**
 Several write items of one request: ExecuteWriteNode of query/write.go over a shared WriteState.
 */
module WriteRequest {
  import opened Wrappers
  import opened WriteTree
  import opened WriteStatements
  import opened WritePhases
  import opened WriteMerge
  import opened WriteOutcome

  /** Temp rows that only got keys leave the request orderly. */
  lemma OrderlyFrame(nextNodeID: nat, nextRowID: nat, a: Temps, b: Temps, tn: Nodes)
    requires Orderly(nextNodeID, nextRowID, a, tn) && SameRows(a, b)
    ensures Orderly(nextNodeID, nextRowID, b, tn)
  {
    forall i | i in a ensures b[i] == a[i].(vals := b[i].vals) {
    }
    forall rel, id ensures HasRow(a, rel, id) <==> HasRow(b, rel, id) {
      if HasRow(a, rel, id) {
        var i :| i in a && a[i].rel == rel && a[i].node == id;
        assert b[i].rel == rel && b[i].node == id;
      }
      if HasRow(b, rel, id) {
        var i :| i in b && b[i].rel == rel && b[i].node == id;
        assert a[i].rel == rel && a[i].node == id;
      }
    }
  }

  /** A table of the relation as the database keeps it: one row per identity, none without one. */
  ghost predicate TableOk(env: Env, db: map<Rel, Table>, rel: Rel) {
    Keyed(TableOf(db, rel), env.ident(rel)) && Null !in TableOf(db, rel)
  }

  /** Every merged node with a relation of its own ends up merged. */
  ghost predicate AllMerged(env: Env, t: Node, pop: set<nat>, s0: State, s: State) {
    forall site :: SiteIn(t, Root, site) && site.n.mode == MERGE && OnlyWriter(t, site)
                   && (site.link.Root? || site.link.parent.id in pop)
                   && TableOk(env, s0.db, site.n.rel)
                   ==> Merged(env, site, TableOf(s0.db, site.n.rel), TableOf(s.db, site.n.rel), s0.temps, s.temps)
  }

  /** The node sets after those of the relations in `done` were added. */
  ghost predicate Added(known: Nodes, more: Nodes, done: set<Rel>, tn: Nodes) {
    && tn.Keys == known.Keys + done
    && forall rel :: rel in tn ==> tn[rel] == NodesIn(known, rel) + (if rel in done then NodesIn(more, rel) else {})
  }

  lemma NoneAdded(known: Nodes, more: Nodes)
    ensures Added(known, more, {}, known)
  {
  }

  lemma AddedStep(known: Nodes, more: Nodes, done: set<Rel>, tn: Nodes, rel: Rel)
    requires Added(known, more, done, tn) && rel in more
    ensures Added(known, more, done + {rel}, tn[rel := NodesIn(tn, rel) + more[rel]])
  {
    assert NodesIn(tn, rel) + more[rel] == NodesIn(known, rel) + NodesIn(more, rel);
  }

  lemma AllAdded(known: Nodes, more: Nodes, tn: Nodes)
    requires Added(known, more, more.Keys, tn)
    ensures tn == JoinNodes(known, more)
  {
  }

  // ---- which trees may be written ----------------------------------------------------------------------------

  /** A node of the written part of a tree. */
  ghost predicate IsWritten(t: Node, n: Node)
    decreases t
  {
    !t.mode.READONLY? && (n == t || (exists i :: 0 <= i < |t.outgoing| && IsWritten(t.outgoing[i], n))
                          || (exists i :: 0 <= i < |t.incoming| && IsWritten(t.incoming[i], n)))
  }

  /** findUnwritableNode: a node that may not be written and has no such node below it, if there is one. */
  method FindUnwritable(t: Node, writable: Node -> bool) returns (found: Option<Node>)
    ensures found.None? <==> forall n :: IsWritten(t, n) ==> writable(n)
    ensures found.Some? ==> IsWritten(t, found.value) && forall n ::
                              IsWritten(found.value, n) && n != found.value ==> writable(n)
    decreases t
  {
    if t.mode == READONLY {
      return None;
    }
    for i := 0 to |t.outgoing|
      invariant forall j, n :: 0 <= j < i && IsWritten(t.outgoing[j], n) ==> writable(n)
    {
      found := FindUnwritable(t.outgoing[i], writable);
      if found.Some? {
        return;
      }
    }
    for i := 0 to |t.incoming|
      invariant forall j, n :: 0 <= j < i && IsWritten(t.incoming[j], n) ==> writable(n)
    {
      found := FindUnwritable(t.incoming[i], writable);
      if found.Some? {
        return;
      }
    }
    if !writable(t) {
      return Some(t);
    }
    found := None;
  }

  /** The counters and the temp tables a request's write items share; the tables themselves are the database's. */
  class WriteState {
    var nextNodeID: nat
    var nextRowID: nat
    var tableNodes: Nodes
    var temps: Temps
    var db: map<Rel, Table>

    ghost predicate Valid()
      reads this
    {
      Orderly(nextNodeID, nextRowID, temps, tableNodes)
    }

    constructor (db: map<Rel, Table>)
      ensures Valid() && this.db == db
    {
      nextNodeID := 0;
      nextRowID := 0;
      tableNodes := map[];
      temps := map[];
      this.db := db;
    }

    /** Adds the node sets of an item's temp tables to those of the request. */
    method AddTableNodes(more: Nodes)
      modifies this`tableNodes
      ensures tableNodes == JoinNodes(old(tableNodes), more)
    {
      hide Added;
      var known := tableNodes;
      var left := more.Keys;
      ghost var done: set<Rel> := {};
      NoneAdded(known, more);
      while left != {}
        invariant left + done == more.Keys && Added(known, more, done, tableNodes)
        decreases |left|
      {
        var rel :| rel in left;
        AddedStep(known, more, done, tableNodes, rel);
        tableNodes := tableNodes[rel := NodesIn(tableNodes, rel) + more[rel]];
        left := left - {rel};
        done := done + {rel};
      }
      AllAdded(known, more, tableNodes);
    }

    /**
     One write item: ids, rows, then the statements of both phases in one queue. The database runs the queue as
     `Exec` says, or refuses it, for a constraint of its own for instance.
     */
    method ExecuteWriteNode(env: Env, root: Node, writable: Node -> bool, payload: Json,
                            database: (State, Nodes, seq<Statement>) -> Option<State>)
      returns (ok: bool, t: Node, queue: seq<Statement>, loaded: Temps, pop: set<nat>)
      requires Valid()
      requires forall s, tn, q :: database(s, tn, q).Some? ==> database(s, tn, q) == Exec(env, s, tn, q)
      modifies this
      ensures Numbered(t, old(nextNodeID)) && SameButIds(root, t)
      ensures ok <==> !root.mode.READONLY? && (forall n :: IsWritten(root, n) ==> writable(n)) && payload.JArray?
                      && Denormalize(env, t, payload.items, old(nextRowID)).Rows?
                      && database(State(old(db), loaded), tableNodes, queue).Some?
      ensures ok ==> Valid() && nextNodeID == old(nextNodeID) + Count(t) && Ready(t, loaded, tableNodes, pop)
      ensures ok ==> loaded == Load(old(temps), Denormalize(env, t, payload.items, old(nextRowID)).rows)
                     && queue == Queue(t, pop)
      ensures ok ==> Exec(env, State(old(db), loaded), tableNodes, queue) == Some(State(db, temps))
      ensures ok ==> AllMerged(env, t, pop, State(old(db), loaded), State(db, temps))
    {
      hide Numbered, Count, SiteIn, Orderly, Ready, Load, JoinNodes, Exec, Denormalize, Plan1, Plan2, PayloadRows,
           TableNodes, NodesWithRows, SameButIds, AllMerged, Queue, IsWritten;
      var next;
      t, next := AssignNodeIDs(root, nextNodeID);
      loaded, pop, queue := temps, {}, [];
      SameMode(root, t);
      if root.mode == READONLY {
        return false, t, queue, loaded, pop;
      }
      var bad := FindUnwritable(root, writable);
      if bad.Some? {
        return false, t, queue, loaded, pop;
      }
      var rows, nodes;
      ok, rows, pop, nodes := DenormalizeNode(env, t, payload, nextRowID);
      if !ok {
        return;
      }
      loaded := Load(temps, rows);
      LoadOrderly(t, nextNodeID, nextRowID, temps, tableNodes, rows, nodes);
      LoadReady(t, nextNodeID, nextRowID, temps, tableNodes, rows, nodes);
      AddTableNodes(nodes);
      queue := Compile(t, pop);
      var after := database(State(db, loaded), tableNodes, queue);
      if after.None? {
        return false, t, queue, loaded, pop;
      }
      ItemDone(env, t, State(db, loaded), tableNodes, pop, nextNodeID, next, nextRowID + |rows|);
      nextNodeID := next;
      nextRowID := nextRowID + |rows|;
      temps := after.value.temps;
      db := after.value.db;
    }
  }

  /** The statements of both phases. */
  method Compile(t: Node, pop: set<nat>) returns (queue: seq<Statement>)
    ensures queue == Queue(t, pop)
  {
    hide Plan1, Plan2;
    var dc := new DmlCompiler(pop);
    dc.Phase1(t, Root);
    dc.Phase2(t, Root);
    queue := dc.queue;
  }

  lemma ItemDone(env: Env, t: Node, s0: State, tn: Nodes, pop: set<nat>, from: nat, nextNodeID: nat, nextRowID: nat)
    requires Numbered(t, from) && Ready(t, s0.temps, tn, pop) && Orderly(nextNodeID, nextRowID, s0.temps, tn)
    requires Exec(env, s0, tn, Queue(t, pop)).Some?
    ensures var s := Exec(env, s0, tn, Queue(t, pop)).value;
            Orderly(nextNodeID, nextRowID, s.temps, tn) && AllMerged(env, t, pop, s0, s)
  {
    hide Exec, Numbered, Ready, Orderly, AllMerged, Queue, SameRows;
    RunKeeps(env, t, s0, tn, pop);
    OrderlyFrame(nextNodeID, nextRowID, s0.temps, Exec(env, s0, tn, Queue(t, pop)).value.temps, tn);
    OrderlyIds(nextNodeID, nextRowID, s0.temps, tn);
    ItemMerged(env, t, s0, tn, pop, from);
  }

  lemma SameMode(a: Node, b: Node)
    requires SameButIds(a, b)
    ensures a.mode == b.mode
  {
  }

  lemma OrderlyIds(nextNodeID: nat, nextRowID: nat, temps: Temps, tn: Nodes)
    requires Orderly(nextNodeID, nextRowID, temps, tn)
    ensures forall a :: a in temps ==> temps[a].rowId == a
  {
  }

  lemma RunKeeps(env: Env, t: Node, s0: State, tn: Nodes, pop: set<nat>)
    requires Ready(t, s0.temps, tn, pop) && Exec(env, s0, tn, Queue(t, pop)).Some?
    ensures SameRows(s0.temps, Exec(env, s0, tn, Queue(t, pop)).value.temps)
  {
    hide Exec, SiteIn, Owns, Plan1, Plan2, Ready;
    QueueOwned(t, s0.temps, tn, pop);
    ExecFrame(env, s0, tn, Queue(t, pop));
  }

  lemma ItemMerged(env: Env, t: Node, s0: State, tn: Nodes, pop: set<nat>, from: nat)
    requires Numbered(t, from) && Ready(t, s0.temps, tn, pop) && forall a :: a in s0.temps ==> s0.temps[a].rowId == a
    requires Exec(env, s0, tn, Queue(t, pop)).Some?
    ensures AllMerged(env, t, pop, s0, Exec(env, s0, tn, Queue(t, pop)).value)
  {
    hide Exec, SiteIn, Numbered, Ready, OnlyWriter, Merged, Keyed, Plan1, Plan2, TableOf;
    forall site | SiteIn(t, Root, site) && site.n.mode == MERGE && OnlyWriter(t, site)
    && (site.link.Root? || site.link.parent.id in pop) && TableOk(env, s0.db, site.n.rel)
      ensures var s := Exec(env, s0, tn, Queue(t, pop)).value;
              Merged(env, site, TableOf(s0.db, site.n.rel), TableOf(s.db, site.n.rel), s0.temps, s.temps)
    {
      MergeOutcome(env, t, s0, tn, pop, site, from);
    }
  }
}
