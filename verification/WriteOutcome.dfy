/**
 The outcome of a merge: after both phases a merged relation holds, in the scope of the payload, exactly the
 payload's rows, each pointing at its own parent, and everything else is as it was.
 */
module WriteOutcome {
  import opened Wrappers
  import opened WriteTree
  import opened WriteStatements
  import opened WritePhases
  import opened WriteMerge

  // ---- what a merge promises -------------------------------------------------------------------------

  predicate IsOwn(temps: Temps, n: Node, a: nat) {
    a in temps && temps[a].node == n.id
  }

  /** The identity a row ended up with. */
  function RowKey(env: Env, temps: Temps, n: Node, a: nat): Value
    requires a in temps
  {
    Get(temps[a].vals, env.ident(n.rel))
  }

  ghost function RowKeys(env: Env, temps: Temps, n: Node): set<Value> {
    set a | a in temps && temps[a].node == n.id :: RowKey(env, temps, n, a)
  }

  /** The keys of the parent's rows. */
  ghost function KeysOf(temps: Temps, p: Node, distant: Col): set<Value> {
    (set a | a in temps && temps[a].node == p.id :: Get(temps[a].vals, distant)) - {Null}
  }

  /** The rows a merge is about: the whole relation at the root, else those under a parent of the payload. */
  ghost predicate Covered(temps: Temps, site: Site, r: Row) {
    site.link.Root? || Get(r, site.n.local) in KeysOf(temps, site.link.parent, site.n.distant)
  }

  /** The payload's rows are there, one for each, under their own parents, with the values they supply. */
  ghost predicate Present(env: Env, site: Site, t: Table, before: Temps, temps: Temps) {
    && before.Keys == temps.Keys
    && (forall a :: IsOwn(temps, site.n, a) ==> RowPresent(env, site, t, before, temps, a))
    && (forall a, b :: IsOwn(temps, site.n, a) && IsOwn(temps, site.n, b)
                       && RowKey(env, temps, site.n, a) == RowKey(env, temps, site.n, b)
                       ==> a == b)
  }

  ghost predicate RowPresent(env: Env, site: Site, t: Table, before: Temps, temps: Temps, a: nat)
    requires before.Keys == temps.Keys && a in temps
  {
    var k := RowKey(env, temps, site.n, a);
    && k != Null && k in t
    && (site.link.In? ==> PointsAt(temps, a, site.link.parent)
                          && Get(t[k], site.n.local) == Get(temps[temps[a].parent.value].vals, site.n.distant))
    && forall c :: Supplied(env, site, before[a], c) ==> Get(t[k], c) == Get(before[a].vals, c)
  }

  /** A column the payload gives a value for, and that both inserts and updates may write. */
  ghost predicate Supplied(env: Env, site: Site, r: TempRow, c: Col) {
    && c in InsertColumns(env, site) && c in SetColumns(env, site) && !KeyLinked(site, c) && c in r.mask
    && !(env.notNull(site.n.rel, c) && Get(r.vals, c) == Null)
  }

  /** Rows that are not the payload's are as they were. */
  ghost predicate OthersKept(t0: Table, t: Table, mine: set<Value>) {
    forall k :: k !in mine ==> (k in t <==> k in t0) && (k in t ==> t[k] == t0[k])
  }

  ghost predicate Merged(env: Env, site: Site, t0: Table, t: Table, before: Temps, temps: Temps) {
    && Present(env, site, t, before, temps)
    && (forall k :: k in t && Covered(temps, site, t[k]) ==> k in RowKeys(env, temps, site.n))
    && (forall k :: k in t0 && k !in RowKeys(env, temps, site.n) && !Covered(temps, site, t0[k]) ==>
                      k in t && t[k] == t0[k])
    && (forall k :: k in t && k !in RowKeys(env, temps, site.n) ==> k in t0 && t[k] == t0[k])
  }

  // ---- the upsert ----------------------------------------------------------------------------------------

  /** Every own row is found by the statement, under its parent. */
  ghost predicate Joinable(temps: Temps, tn: Nodes, site: Site) {
    && Owns(tn, temps, site.n)
    && (site.link.In? ==> site.link.parent.id != site.n.id && forall a ::
                            IsOwn(temps, site.n, a) ==> PointsAt(temps, a, site.link.parent))
    && forall a :: IsOwn(temps, site.n, a) ==> temps[a].rowId == a
  }

  lemma ResolvedKeys(env: Env, temps: Temps, tn: Nodes, site: Site, a: nat)
    requires Joinable(temps, tn, site)
    ensures a in Sources(temps, tn, site) <==> IsOwn(temps, site.n, a)
  {
  }

  /** What the upsert stores for a row, and the key it gets back. */
  lemma UpsertRow(env: Env, s: State, tn: Nodes, site: Site, a: nat)
    requires Joinable(s.temps, tn, site) && RunUpsert(env, s, tn, site).Some? && IsOwn(s.temps, site.n, a)
    requires Keyed(TableOf(s.db, site.n.rel), env.ident(site.n.rel))
    ensures var s' := RunUpsert(env, s, tn, site).value;
            var t := TableOf(s'.db, site.n.rel);
            var res := Resolved(env, s.temps, tn, site, InsertColumns(env, site));
            var k := Get(res[a], env.ident(site.n.rel));
            && k in t && RowKey(env, s'.temps, site.n, a) == k && Get(t[k], env.ident(site.n.rel)) == k
            && forall c :: c in InsertColumns(env, site)
                           && (c in SetColumns(env, site) || c == env.ident(site.n.rel))
                           ==> Get(t[k], c) == res[a][c]
  {
    hide ColumnValue, ColumnsFor, Sources, UpsertTable, Idents;
    var ident := env.ident(site.n.rel);
    var res := Resolved(env, s.temps, tn, site, InsertColumns(env, site));
    ResolvedKeys(env, s.temps, tn, site, a);
    assert ident in KeyColumns(env, site) && ident in InsertColumns(env, site);
    StoredRow(env, TableOf(s.db, site.n.rel), site.n.rel, res, SetColumns(env, site), a);
  }

  lemma StoredRow(env: Env, t0: Table, rel: Rel, res: map<nat, Row>, columns: set<Col>, a: nat)
    requires DistinctIdents(res, env.ident(rel)) && a in res && Keyed(t0, env.ident(rel)) && env.ident(rel) !in columns
             && env.ident(rel) in res[a]
    ensures var t := UpsertTable(env, t0, rel, res, columns);
            var k := Get(res[a], env.ident(rel));
            && k in t && Get(t[k], env.ident(rel)) == k
            && forall c :: c in res[a] && (c in columns || c == env.ident(rel)) ==> Get(t[k], c) == res[a][c]
  {
    var ident := env.ident(rel);
    var k := Get(res[a], ident);
    assert k in Idents(res, ident);
    assert Pick(res, ident, k) == a;
    assert NewRow(env, rel, a, res[a])[ident] == res[a][ident];
  }

  /** The upsert makes the payload's rows present and keeps the others. */
  lemma UpsertOutcome(env: Env, s: State, tn: Nodes, site: Site)
    requires Joinable(s.temps, tn, site) && RunUpsert(env, s, tn, site).Some?
    requires Keyed(TableOf(s.db, site.n.rel), env.ident(site.n.rel))
    ensures var s' := RunUpsert(env, s, tn, site).value;
            var t := TableOf(s'.db, site.n.rel);
            && Present(env, site, t, s.temps, s'.temps)
            && OthersKept(TableOf(s.db, site.n.rel), t, RowKeys(env, s'.temps, site.n))
  {
    hide Keyed, UpsertTable, InsertColumns, SetColumns, RunUpsert, KeyLinked, RowPresent;
    var s' := RunUpsert(env, s, tn, site).value;
    var t := TableOf(s'.db, site.n.rel);
    UpsertFrame(env, s, tn, site);
    forall a | IsOwn(s'.temps, site.n, a) ensures RowPresent(env, site, t, s.temps, s'.temps, a) {
      assert s'.temps[a] == s.temps[a].(vals := s'.temps[a].vals);
      UpsertPresent(env, s, tn, site, a);
    }
    forall a, b | IsOwn(s'.temps, site.n, a) && IsOwn(s'.temps, site.n, b)
    && RowKey(env, s'.temps, site.n, a) == RowKey(env, s'.temps, site.n, b)
      ensures a == b
    {
      assert s'.temps[a] == s.temps[a].(vals := s'.temps[a].vals)
             && s'.temps[b] == s.temps[b].(vals := s'.temps[b].vals);
      UpsertDistinct(env, s, tn, site, a, b);
    }
    UpsertOthers(env, s, tn, site);
  }

  lemma UpsertDistinct(env: Env, s: State, tn: Nodes, site: Site, a: nat, b: nat)
    requires Joinable(s.temps, tn, site) && RunUpsert(env, s, tn, site).Some? && IsOwn(s.temps, site.n, a)
             && IsOwn(s.temps, site.n, b)
    requires Keyed(TableOf(s.db, site.n.rel), env.ident(site.n.rel))
    requires var s' := RunUpsert(env, s, tn, site).value;
             RowKey(env, s'.temps, site.n, a) == RowKey(env, s'.temps, site.n, b)
    ensures a == b
  {
    hide Keyed, UpsertTable, SetColumns, InsertColumns, ColumnValue, Sources, WriteBack;
    UpsertRow(env, s, tn, site, a);
    UpsertRow(env, s, tn, site, b);
    ResolvedKeys(env, s.temps, tn, site, a);
    ResolvedKeys(env, s.temps, tn, site, b);
  }

  lemma UpsertPresent(env: Env, s: State, tn: Nodes, site: Site, a: nat)
    requires Joinable(s.temps, tn, site) && RunUpsert(env, s, tn, site).Some? && IsOwn(s.temps, site.n, a)
    requires Keyed(TableOf(s.db, site.n.rel), env.ident(site.n.rel))
    requires SameRows(s.temps, RunUpsert(env, s, tn, site).value.temps)
    requires forall b :: b in s.temps && s.temps[b].node != site.n.id ==>
                           RunUpsert(env, s, tn, site).value.temps[b] == s.temps[b]
    ensures var s' := RunUpsert(env, s, tn, site).value;
            RowPresent(env, site, TableOf(s'.db, site.n.rel), s.temps, s'.temps, a)
  {
    hide Keyed, UpsertTable, RunUpsert, Sources, KeyColumns, ColumnsFor;
    var s' := RunUpsert(env, s, tn, site).value;
    var t := TableOf(s'.db, site.n.rel);
    var ident := env.ident(site.n.rel);
    var res := Resolved(env, s.temps, tn, site, InsertColumns(env, site));
    ResolvedKeys(env, s.temps, tn, site, a);
    UpsertRow(env, s, tn, site, a);
    NotNull(env, s, tn, site, a);
    var k := RowKey(env, s'.temps, site.n, a);
    if site.link.In? {
      LocalWritten(env, site);
      var x := s.temps[a].parent.value;
      assert s'.temps[x] == s.temps[x] && PointsAt(s'.temps, a, site.link.parent);
      assert res[a][site.n.local] == ColumnValue(env, s.temps, tn, site, s.temps[a], site.n.local);
    }
    forall c | Supplied(env, site, s.temps[a], c) ensures Get(t[k], c) == Get(s.temps[a].vals, c) {
      assert res[a][c] == ColumnValue(env, s.temps, tn, site, s.temps[a], c);
    }
  }

  lemma NotNull(env: Env, s: State, tn: Nodes, site: Site, a: nat)
    requires Joinable(s.temps, tn, site) && RunUpsert(env, s, tn, site).Some? && IsOwn(s.temps, site.n, a)
    ensures Resolved(env, s.temps, tn, site, InsertColumns(env, site))[a] != map[]
    ensures Get(Resolved(env, s.temps, tn, site, InsertColumns(env, site))[a], env.ident(site.n.rel)) != Null
  {
    hide UpsertTable, ColumnValue, Sources, WriteBack, Found, ColumnsFor;
    ResolvedKeys(env, s.temps, tn, site, a);
    var res := Resolved(env, s.temps, tn, site, InsertColumns(env, site));
    assert Get(res[a], env.ident(site.n.rel)) in Idents(res, env.ident(site.n.rel));
    assert env.ident(site.n.rel) in InsertColumns(env, site);
  }

  lemma LocalWritten(env: Env, site: Site)
    requires site.link.In?
    ensures site.n.local in InsertColumns(env, site)
    ensures site.n.local in SetColumns(env, site) || site.n.local == env.ident(site.n.rel)
  {
  }

  lemma UpsertOthers(env: Env, s: State, tn: Nodes, site: Site)
    requires Joinable(s.temps, tn, site) && RunUpsert(env, s, tn, site).Some?
    requires Keyed(TableOf(s.db, site.n.rel), env.ident(site.n.rel))
    requires SameRows(s.temps, RunUpsert(env, s, tn, site).value.temps)
    ensures var s' := RunUpsert(env, s, tn, site).value;
            OthersKept(TableOf(s.db, site.n.rel), TableOf(s'.db, site.n.rel), RowKeys(env, s'.temps, site.n))
  {
    hide Keyed, InsertColumns, SetColumns, ColumnValue, Sources;
    var s' := RunUpsert(env, s, tn, site).value;
    var ident := env.ident(site.n.rel);
    var res := Resolved(env, s.temps, tn, site, InsertColumns(env, site));
    forall k | k in Idents(res, ident) ensures k in RowKeys(env, s'.temps, site.n) {
      var a :| a in res && Get(res[a], ident) == k;
      ResolvedKeys(env, s.temps, tn, site, a);
      UpsertRow(env, s, tn, site, a);
      assert s'.temps[a] == s.temps[a].(vals := s'.temps[a].vals);
    }
  }

  // ---- the delete -------------------------------------------------------------------------------------------

  lemma DeleteScope(env: Env, s: State, tn: Nodes, site: Site, r: Row)
    requires Owns(tn, s.temps, site.n) && (!site.link.Root? ==> Owns(tn, s.temps, site.link.parent))
    ensures InScope(s.temps, tn, site, r) <==> Covered(s.temps, site, r)
    ensures Kept(env, s.temps, tn, site.n) == RowKeys(env, s.temps, site.n) - {Null}
  {
    assert Kept(env, s.temps, tn, site.n) == RowKeys(env, s.temps, site.n) - {Null};
    if !site.link.Root? {
      var p := site.link.parent;
      assert ParentKeys(s.temps, tn, p, site.n.distant) == KeysOf(s.temps, p, site.n.distant);
    }
  }

  /** From an upserted table, the delete makes a merged one. */
  lemma DeleteOutcome(env: Env, s: State, tn: Nodes, site: Site, t0: Table, before: Temps)
    requires Owns(tn, s.temps, site.n) && (!site.link.Root? ==> Owns(tn, s.temps, site.link.parent))
    requires var t := TableOf(s.db, site.n.rel);
             Present(env, site, t, before, s.temps) && OthersKept(t0, t, RowKeys(env, s.temps, site.n)) && Null !in t
    ensures var s' := RunDelete(env, s, tn, site);
            Merged(env, site, t0, TableOf(s'.db, site.n.rel), before, s'.temps)
  {
    hide Covered, InScope, Kept, RowKeys, Supplied;
    var t := TableOf(s.db, site.n.rel);
    var s' := RunDelete(env, s, tn, site);
    var t' := TableOf(s'.db, site.n.rel);
    var mine := RowKeys(env, s.temps, site.n);
    forall k | k in t ensures k in t' <==> !(Covered(s.temps, site, t[k]) && k !in mine) {
      DeleteScope(env, s, tn, site, t[k]);
    }
    forall a | IsOwn(s.temps, site.n, a) ensures RowPresent(env, site, t', before, s.temps, a) {
      assert RowPresent(env, site, t, before, s.temps, a);
      MineKey(env, s.temps, site.n, a);
    }
  }

  lemma MineKey(env: Env, temps: Temps, n: Node, a: nat)
    requires IsOwn(temps, n, a)
    ensures RowKey(env, temps, n, a) in RowKeys(env, temps, n)
  {
  }

  // ---- the whole run ------------------------------------------------------------------------------------------

  /** No other written node of the tree uses the relation. */
  ghost predicate OnlyWriter(t: Node, site: Site) {
    forall s :: SiteIn(t, Root, s) && s.n.rel == site.n.rel ==> s == site
  }

  function Queue(t: Node, pop: set<nat>): seq<Statement> {
    Writes(Plan1(t, Root, pop)) + Deletes(Plan2(t, Root, pop))
  }

  lemma QueueOwned(t: Node, temps: Temps, tn: Nodes, pop: set<nat>)
    requires Ready(t, temps, tn, pop)
    ensures forall st :: st in Queue(t, pop) ==> SiteIn(t, Root, st.site) && Owns(tn, temps, st.site.n)
  {
    hide SiteIn, Plan1, Plan2, Owns;
    Plan1Sites(t, Root, pop);
    Plan2Sites(t, Root, pop);
    forall st | st in Queue(t, pop) ensures SiteIn(t, Root, st.site) {
      if st in Writes(Plan1(t, Root, pop)) {
        assert st.site in Plan1(t, Root, pop);
      } else {
        assert st.site in Plan2(t, Root, pop);
      }
    }
  }

  lemma ReadyClosed(t: Node, temps: Temps, tn: Nodes, pop: set<nat>)
    requires Ready(t, temps, tn, pop)
    ensures Closed(t, Root, pop)
  {
    hide SiteIn, Owns;
    forall s | SiteIn(t, Root, s) && s.n.id in pop && !s.link.Root? ensures s.link.parent.id in pop {
      var a :| a in temps && temps[a].node == s.n.id;
      assert PointsAt(temps, a, s.link.parent);
      var p := ParentSite(t, Root, s);
      assert temps[temps[a].parent.value].node == p.n.id;
    }
  }

  /** Statements that are not the node's write and not on its relation leave its rows and table alone. */
  ghost predicate Aside(q: seq<Statement>, site: Site) {
    forall st :: st in q ==> st.site.n.rel != site.n.rel && (st.Write? ==> st.site.n.id != site.n.id)
  }

  lemma AsideRun(env: Env, s: State, tn: Nodes, q: seq<Statement>, site: Site)
    requires AllOwn(tn, s.temps, q) && Exec(env, s, tn, q).Some? && Aside(q, site)
    ensures var s' := Exec(env, s, tn, q).value;
            && SameRows(s.temps, s'.temps) && TableOf(s'.db, site.n.rel) == TableOf(s.db, site.n.rel)
            && forall a :: IsOwn(s.temps, site.n, a) ==> s'.temps[a] == s.temps[a]
  {
    hide Exec, TableOf, Owns;
    ExecFrame(env, s, tn, q);
  }

  /** Present rows stay present while their own temp rows and their parents' stay as they are. */
  lemma PresentFrame(env: Env, site: Site, t: Table, before: Temps, before': Temps, temps: Temps, temps': Temps)
    requires Present(env, site, t, before, temps) && SameRows(temps, temps') && before'.Keys == before.Keys
    requires forall a :: IsOwn(temps, site.n, a) ==> temps'[a] == temps[a] && before'[a] == before[a]
    requires site.link.In? ==> forall a :: IsOwn(temps, site.link.parent, a) ==> temps'[a] == temps[a]
    ensures Present(env, site, t, before', temps') && RowKeys(env, temps', site.n) == RowKeys(env, temps, site.n)
  {
    hide Supplied;
    forall a | a in temps ensures temps'[a].node == temps[a].node {
      assert temps'[a] == temps[a].(vals := temps'[a].vals);
    }
    forall a | IsOwn(temps', site.n, a) ensures RowPresent(env, site, t, before', temps', a) {
      assert IsOwn(temps, site.n, a);
      assert RowPresent(env, site, t, before, temps, a);
    }
  }

  lemma AsidePlan(t: Node, plan: seq<Site>, site: Site, from: nat)
    requires Numbered(t, from) && SiteIn(t, Root, site) && OnlyWriter(t, site)
    requires forall s :: s in plan ==> SiteIn(t, Root, s) && s.n.id != site.n.id
    ensures Aside(Writes(plan), site) && Aside(Deletes(plan), site)
  {
    hide Numbered, SiteIn;
    forall s | s in plan ensures s.n.rel != site.n.rel {
    }
  }

  lemma SplitAt(plan: seq<Site>, j: nat)
    requires j < |plan|
    ensures Writes(plan) == Writes(plan[..j]) + ([Write(plan[j])] + Writes(plan[j + 1..]))
    ensures Deletes(plan) == Deletes(plan[..j]) + ([Delete(plan[j])] + Deletes(plan[j + 1..]))
  {
  }

  /** The parent's write comes first, so its keys are settled when its incoming children read them. */
  lemma ParentSettled(t: Node, pop: set<nat>, site: Site, j: nat, from: nat)
    requires Numbered(t, from) && j < |Plan1(t, Root, pop)| && Plan1(t, Root, pop)[j] == site && site.link.In?
    ensures forall s :: s in Plan1(t, Root, pop)[j..] ==> s.n.id != site.link.parent.id
  {
    hide Plan1, Numbered;
    var plan := Plan1(t, Root, pop);
    Plan1Distinct(t, Root, pop, from);
    KeyOrder(t, Root, pop, site);
    var i, j' :| 0 <= i < |plan| && 0 <= j' < |plan| && plan[i].n == site.link.parent && plan[j'] == site && i < j';
    assert j' == j;
    forall s | s in plan[j..] ensures s.n.id != site.link.parent.id {
      var m :| 0 <= m < |plan[j..]| && plan[j..][m] == s;
      assert plan[j + m] == s && i < j + m;
    }
  }

  /** Everything but the merge itself, around it: phase 1 leaves the payload's rows present and the others kept. */
  lemma AfterPhase1(env: Env, t: Node, s0: State, tn: Nodes, pop: set<nat>, site: Site, from: nat)
    requires Numbered(t, from) && Ready(t, s0.temps, tn, pop) && forall a :: a in s0.temps ==> s0.temps[a].rowId == a
    requires SiteIn(t, Root, site) && site.n.mode == MERGE && OnlyWriter(t, site)
    requires Keyed(TableOf(s0.db, site.n.rel), env.ident(site.n.rel)) && Null !in TableOf(s0.db, site.n.rel)
    requires Exec(env, s0, tn, Writes(Plan1(t, Root, pop))).Some?
    ensures var s1 := Exec(env, s0, tn, Writes(Plan1(t, Root, pop))).value;
            var t1 := TableOf(s1.db, site.n.rel);
            && SameRows(s0.temps, s1.temps) && Present(env, site, t1, s0.temps, s1.temps) && Null !in t1
            && OthersKept(TableOf(s0.db, site.n.rel), t1, RowKeys(env, s1.temps, site.n))
  {
    hide SiteIn, Plan1, Numbered, Owns, Exec, TableOf, Keyed, Writes, Present, RowKeys, OnlyWriter;
    var plan := Plan1(t, Root, pop);
    Plan1Sites(t, Root, pop);
    if site.n.id in pop {
      ReadyClosed(t, s0.temps, tn, pop);
      Plan1Has(t, Root, pop, site);
      var j :| 0 <= j < |plan| && plan[j] == site;
      PopulatedPhase1(env, t, s0, tn, pop, site, from, j);
    } else {
      AsidePlan(t, plan, site, from);
      PlanOwned(t, s0.temps, tn, pop, plan);
      AsideRun(env, s0, tn, Writes(plan), site);
      NoRows(env, site, s0.temps, Exec(env, s0, tn, Writes(plan)).value.temps, TableOf(s0.db, site.n.rel));
    }
  }

  lemma NoRows(env: Env, site: Site, before: Temps, temps: Temps, t: Table)
    requires SameRows(before, temps) && forall a :: a in before ==> before[a].node != site.n.id
    ensures Present(env, site, t, before, temps) && RowKeys(env, temps, site.n) == {}
  {
    forall a | a in temps ensures temps[a].node != site.n.id {
      assert temps[a] == before[a].(vals := temps[a].vals);
    }
  }

  lemma PlanOwned(t: Node, temps: Temps, tn: Nodes, pop: set<nat>, plan: seq<Site>)
    requires Ready(t, temps, tn, pop) && forall s :: s in plan ==> SiteIn(t, Root, s)
    ensures AllOwn(tn, temps, Writes(plan)) && AllOwn(tn, temps, Deletes(plan))
  {
    hide SiteIn, Owns;
  }

  lemma ReadyFrame(t: Node, a: Temps, b: Temps, tn: Nodes, pop: set<nat>)
    requires Ready(t, a, tn, pop) && SameRows(a, b)
    ensures Ready(t, b, tn, pop)
  {
    hide SiteIn, Owns;
    forall i | i in a ensures b[i] == a[i].(vals := b[i].vals) {
    }
    forall s | SiteIn(t, Root, s) ensures Owns(tn, b, s.n) {
      SameRowsOwn(tn, a, b, s.n);
    }
    forall s | SiteIn(t, Root, s) ensures s.n.id in pop <==> exists i :: i in b && b[i].node == s.n.id {
      if s.n.id in pop {
        var i :| i in a && a[i].node == s.n.id;
        assert b[i].node == s.n.id;
      }
      if exists i :: i in b && b[i].node == s.n.id {
        var i :| i in b && b[i].node == s.n.id;
        assert a[i].node == s.n.id;
      }
    }
  }

  lemma PopulatedPhase1(env: Env, t: Node, s0: State, tn: Nodes, pop: set<nat>, site: Site, from: nat, j: nat)
    requires Numbered(t, from) && Ready(t, s0.temps, tn, pop) && forall a :: a in s0.temps ==> s0.temps[a].rowId == a
    requires SiteIn(t, Root, site) && site.n.mode == MERGE && OnlyWriter(t, site)
    requires Keyed(TableOf(s0.db, site.n.rel), env.ident(site.n.rel)) && Null !in TableOf(s0.db, site.n.rel)
    requires Exec(env, s0, tn, Writes(Plan1(t, Root, pop))).Some? && j < |Plan1(t, Root, pop)|
             && Plan1(t, Root, pop)[j] == site
    ensures var s1 := Exec(env, s0, tn, Writes(Plan1(t, Root, pop))).value;
            var t1 := TableOf(s1.db, site.n.rel);
            && SameRows(s0.temps, s1.temps) && Present(env, site, t1, s0.temps, s1.temps) && Null !in t1
            && OthersKept(TableOf(s0.db, site.n.rel), t1, RowKeys(env, s1.temps, site.n))
  {
    hide SiteIn, Plan1, Numbered, Owns, Exec, TableOf, Keyed, Writes, Present, RowKeys, OnlyWriter, Ready, RunUpsert,
         SameRows, OthersKept, Deletes;
    var plan := Plan1(t, Root, pop);
    var first, last := plan[..j], plan[j + 1..];
    Plan1Sites(t, Root, pop);
    Plan1Distinct(t, Root, pop, from);
    SplitAt(plan, j);
    ExecSplit(env, s0, tn, Writes(first), [Write(site)] + Writes(last));
    var sA := Exec(env, s0, tn, Writes(first)).value;
    ExecSplit(env, sA, tn, [Write(site)], Writes(last));
    OneStep(env, sA, tn, Write(site));
    var sB := Exec(env, sA, tn, [Write(site)]).value;
    var s1 := Exec(env, sB, tn, Writes(last)).value;
    OtherIds(plan, j);
    AsidePlan(t, first, site, from);
    AsidePlan(t, last, site, from);
    PlanOwned(t, s0.temps, tn, pop, first);
    AsideRun(env, s0, tn, Writes(first), site);
    ReadyFrame(t, s0.temps, sA.temps, tn, pop);
    Joins(t, s0.temps, sA.temps, tn, pop, site, from);
    UpsertOutcome(env, sA, tn, site);
    UpsertFrame(env, sA, tn, site);
    ReadyFrame(t, sA.temps, sB.temps, tn, pop);
    PlanOwned(t, sB.temps, tn, pop, last);
    AsideRun(env, sB, tn, Writes(last), site);
    ParentsKept(env, t, sB, tn, pop, site, j, from);
    SameTwice(s0.temps, sA.temps, sB.temps);
    SameTwice(s0.temps, sB.temps, s1.temps);
    Carried(env, site, TableOf(sB.db, site.n.rel), TableOf(s0.db, site.n.rel), s0.temps, sA.temps, sB.temps, s1.temps);
  }

  /** The outcome of the upsert, carried over the statements before and after it. */
  lemma Carried(env: Env, site: Site, t: Table, t0: Table, temps0: Temps, tempsA: Temps, tempsB: Temps, temps1: Temps)
    requires SameRows(temps0, tempsA) && SameRows(tempsA, tempsB) && SameRows(tempsB, temps1)
    requires Present(env, site, t, tempsA, tempsB) && OthersKept(t0, t, RowKeys(env, tempsB, site.n)) && Null !in t0
    requires forall a :: IsOwn(temps0, site.n, a) ==> tempsA[a] == temps0[a]
    requires forall a :: IsOwn(tempsB, site.n, a) ==> temps1[a] == tempsB[a]
    requires site.link.In? ==> forall a :: IsOwn(tempsB, site.link.parent, a) ==> temps1[a] == tempsB[a]
    ensures Present(env, site, t, temps0, temps1) && OthersKept(t0, t, RowKeys(env, temps1, site.n)) && Null !in t
  {
    hide RowPresent;
    forall a | IsOwn(tempsB, site.n, a) ensures temps0[a] == tempsA[a] {
      assert tempsB[a] == tempsA[a].(vals := tempsB[a].vals) && tempsA[a] == temps0[a].(vals := tempsA[a].vals);
    }
    PresentFrame(env, site, t, tempsA, temps0, tempsB, temps1);
    NoNullKey(env, site, t, tempsA, tempsB);
  }

  lemma NoNullKey(env: Env, site: Site, t: Table, before: Temps, temps: Temps)
    requires Present(env, site, t, before, temps)
    ensures Null !in RowKeys(env, temps, site.n)
  {
    forall a | IsOwn(temps, site.n, a) ensures RowKey(env, temps, site.n, a) != Null {
      assert RowPresent(env, site, t, before, temps, a);
    }
  }

  lemma OneStep(env: Env, s: State, tn: Nodes, st: Statement)
    ensures Exec(env, s, tn, [st]) == Step(env, s, tn, st)
    ensures st.Write? && st.site.n.mode == MERGE && Step(env, s, tn, st).Some? ==>
              Step(env, s, tn, st) == RunUpsert(env, s, tn, st.site)
  {
    hide RunUpsert, RunInsert, RunMergeNew, RunUpdate, RunDelete;
    assert [st][1..] == [];
  }

  lemma OtherIds(plan: seq<Site>, j: nat)
    requires DistinctIds(plan) && j < |plan|
    ensures forall s :: s in plan[..j] || s in plan[j + 1..] ==> s in plan && s.n.id != plan[j].n.id
  {
  }

  lemma SameTwice(a: Temps, b: Temps, c: Temps)
    requires SameRows(a, b) && SameRows(b, c)
    ensures SameRows(a, c)
  {
    forall i | i in a ensures c[i] == a[i].(vals := c[i].vals) {
      assert b[i] == a[i].(vals := b[i].vals);
    }
  }

  lemma Joins(t: Node, temps0: Temps, temps: Temps, tn: Nodes, pop: set<nat>, site: Site, from: nat)
    requires Numbered(t, from) && Ready(t, temps, tn, pop) && SiteIn(t, Root, site) && SameRows(temps0, temps)
    requires forall a :: a in temps0 ==> temps0[a].rowId == a
    ensures Joinable(temps, tn, site)
  {
    hide Numbered, SiteIn, Owns;
    forall a | IsOwn(temps, site.n, a) ensures temps[a].rowId == a {
      assert temps[a] == temps0[a].(vals := temps[a].vals);
    }
    if site.link.In? {
      ParentApart(t, site, from);
    }
  }

  lemma ParentApart(t: Node, site: Site, from: nat)
    requires Numbered(t, from) && SiteIn(t, Root, site) && !site.link.Root?
    ensures site.link.parent.id != site.n.id
  {
    var p := ParentSite(t, Root, site);
    if p.n.id == site.n.id {
      SiteUnique(t, Root, p, site, from);
    }
  }

  /** What follows the write of an incoming child leaves the temp rows of its parent alone. */
  lemma ParentsKept(env: Env, t: Node, s: State, tn: Nodes, pop: set<nat>, site: Site, j: nat, from: nat)
    requires Numbered(t, from) && Ready(t, s.temps, tn, pop) && j < |Plan1(t, Root, pop)|
             && Plan1(t, Root, pop)[j] == site
    requires Exec(env, s, tn, Writes(Plan1(t, Root, pop)[j + 1..])).Some?
    ensures var s' := Exec(env, s, tn, Writes(Plan1(t, Root, pop)[j + 1..])).value;
            site.link.In? ==> SameRows(s.temps, s'.temps) && forall a ::
                                IsOwn(s.temps, site.link.parent, a) ==> s'.temps[a] == s.temps[a]
  {
    hide Numbered, SiteIn, Owns, Plan1, Exec, Ready;
    if site.link.In? {
      var plan := Plan1(t, Root, pop);
      var last := plan[j + 1..];
      Plan1Sites(t, Root, pop);
      ParentSettled(t, pop, site, j, from);
      assert forall s' :: s' in last ==> s' in plan[j..] && s' in plan by {
        assert plan[j..][1..] == last;
      }
      PlanOwned(t, s.temps, tn, pop, last);
      ExecFrame(env, s, tn, Writes(last));
    }
  }

  lemma AfterPhase2(env: Env, t: Node, s1: State, tn: Nodes, pop: set<nat>, site: Site, from: nat, t0: Table,
                    before: Temps)
    requires Numbered(t, from) && Ready(t, s1.temps, tn, pop)
    requires SiteIn(t, Root, site) && site.n.mode == MERGE && OnlyWriter(t, site)
             && (site.link.Root? || site.link.parent.id in pop)
    requires var t1 := TableOf(s1.db, site.n.rel);
             Present(env, site, t1, before, s1.temps) && Null !in t1
             && OthersKept(t0, t1, RowKeys(env, s1.temps, site.n))
    requires Exec(env, s1, tn, Deletes(Plan2(t, Root, pop))).Some?
    ensures var s2 := Exec(env, s1, tn, Deletes(Plan2(t, Root, pop))).value;
            Merged(env, site, t0, TableOf(s2.db, site.n.rel), before, s2.temps)
  {
    hide SiteIn, Plan2, Numbered, Owns, Exec, TableOf, Writes, Present, RowKeys, OnlyWriter, Ready, Merged, OthersKept,
         RunDelete;
    var plan := Plan2(t, Root, pop);
    Plan2Sites(t, Root, pop);
    Plan2Distinct(t, Root, pop, from);
    ReadyClosed(t, s1.temps, tn, pop);
    Plan2Has(t, Root, pop, site);
    var j :| 0 <= j < |plan| && plan[j] == site;
    var first, last := plan[..j], plan[j + 1..];
    SplitAt(plan, j);
    OtherIds(plan, j);
    AsidePlan(t, first, site, from);
    AsidePlan(t, last, site, from);
    ExecSplit(env, s1, tn, Deletes(first), [Delete(site)] + Deletes(last));
    var sA := Exec(env, s1, tn, Deletes(first)).value;
    ExecSplit(env, sA, tn, [Delete(site)], Deletes(last));
    OneStep(env, sA, tn, Delete(site));
    var sB := RunDelete(env, sA, tn, site);
    PlanOwned(t, s1.temps, tn, pop, plan);
    PlanOwned(t, s1.temps, tn, pop, first);
    PlanOwned(t, s1.temps, tn, pop, last);
    AsideRun(env, s1, tn, Deletes(first), site);
    DeletesKeepTemps(env, s1, tn, first);
    DeleteKeepsTemps(env, sA, tn, site);
    ScopeOwned(t, sA.temps, tn, pop, site);
    DeleteOutcome(env, sA, tn, site, t0, before);
    AsideRun(env, sB, tn, Deletes(last), site);
    DeletesKeepTemps(env, sB, tn, last);
  }

  lemma DeleteKeepsTemps(env: Env, s: State, tn: Nodes, site: Site)
    ensures RunDelete(env, s, tn, site).temps == s.temps
  {
  }

  lemma DeletesKeepTemps(env: Env, s: State, tn: Nodes, plan: seq<Site>)
    requires AllOwn(tn, s.temps, Deletes(plan)) && Exec(env, s, tn, Deletes(plan)).Some?
    ensures Exec(env, s, tn, Deletes(plan)).value.temps == s.temps
  {
    hide Exec, Owns;
    ExecFrame(env, s, tn, Deletes(plan));
  }

  lemma ScopeOwned(t: Node, temps: Temps, tn: Nodes, pop: set<nat>, site: Site)
    requires Ready(t, temps, tn, pop) && SiteIn(t, Root, site)
    ensures Owns(tn, temps, site.n) && (!site.link.Root? ==> Owns(tn, temps, site.link.parent))
  {
    hide SiteIn, Owns;
    if !site.link.Root? {
      RootLink(t, site);
      var p := ParentSite(t, Root, site);
    }
  }

  lemma RootLink(t: Node, site: Site)
    requires SiteIn(t, Root, site) && !site.link.Root?
    ensures site != Site(t, Root)
  {
  }

  /**
   MERGE: after both phases, the rows under the payload's parents are exactly the payload's, and the rest is as it
   was.
   */
  lemma MergeOutcome(env: Env, t: Node, s0: State, tn: Nodes, pop: set<nat>, site: Site, from: nat)
    requires Numbered(t, from) && Ready(t, s0.temps, tn, pop) && forall a :: a in s0.temps ==> s0.temps[a].rowId == a
    requires SiteIn(t, Root, site) && site.n.mode == MERGE && OnlyWriter(t, site)
             && (site.link.Root? || site.link.parent.id in pop)
    requires Keyed(TableOf(s0.db, site.n.rel), env.ident(site.n.rel)) && Null !in TableOf(s0.db, site.n.rel)
    requires Exec(env, s0, tn, Queue(t, pop)).Some?
    ensures var s2 := Exec(env, s0, tn, Queue(t, pop)).value;
            Merged(env, site, TableOf(s0.db, site.n.rel), TableOf(s2.db, site.n.rel), s0.temps, s2.temps)
  {
    hide SiteIn, Plan1, Plan2, Numbered, Exec, TableOf, Present, RowKeys, OnlyWriter, Ready, Merged, OthersKept,
         SameRows, Keyed;
    ExecSplit(env, s0, tn, Writes(Plan1(t, Root, pop)), Deletes(Plan2(t, Root, pop)));
    var s1 := Exec(env, s0, tn, Writes(Plan1(t, Root, pop))).value;
    AfterPhase1(env, t, s0, tn, pop, site, from);
    ReadyFrame(t, s0.temps, s1.temps, tn, pop);
    AfterPhase2(env, t, s1, tn, pop, site, from, TableOf(s0.db, site.n.rel), s0.temps);
  }
}
