/**
 Writes whose payload supplies the keys: the run leaves the temp rows as they were loaded, so which rows of a shared
 relation both phases leave can be told from the payload and the tables before the run.
 */
module WriteSupplied {
  import opened Wrappers
  import opened WriteTree
  import opened WriteStatements
  import opened WritePhases
  import opened WriteMerge
  import opened WriteOutcome
  import opened WriteShared

  // ---- supplied keys ------------------------------------------------------------------------------------

  /**
   A key column of a temp row holds what its statement will resolve: an identity that is not null, or another column
   that an upsert writes. It may be supplied by the payload, generated, or the key of a parent or child that holds it
   already.
   */
  ghost predicate Fixed(env: Env, temps: Temps, tn: Nodes, site: Site, a: nat, c: Col)
    requires a in temps
  {
    && (site.link.In? ==> HasParent(temps, site.link.parent, temps[a]))
    && c in temps[a].vals && ColumnValue(env, temps, tn, site, temps[a], c) == temps[a].vals[c]
    && if c == env.ident(site.n.rel) then temps[a].vals[c] != Null
    else Upserts(site.n.mode) && c in SetColumns(env, site)
  }

  /** All rows of a node hold their keys. */
  ghost predicate SettledAt(env: Env, tn: Nodes, site: Site, temps: Temps) {
    forall a, c :: IsOwn(temps, site.n, a) && c in KeyColumns(env, site) ==> Fixed(env, temps, tn, site, a, c)
  }

  ghost predicate Settled(env: Env, t: Node, tn: Nodes, temps: Temps) {
    forall s :: SiteIn(t, Root, s) ==> SettledAt(env, tn, s, temps)
  }

  lemma ResolvedFixed(env: Env, temps: Temps, tn: Nodes, site: Site, cols: set<Col>, a: nat, c: Col)
    requires a in Sources(temps, tn, site) && c in cols && Fixed(env, temps, tn, site, a, c)
    ensures Resolved(env, temps, tn, site, cols)[a][c] == temps[a].vals[c]
  {
    hide ColumnValue, SetColumns;
  }

  lemma IdentKey(env: Env, site: Site)
    ensures env.ident(site.n.rel) in KeyColumns(env, site) && env.ident(site.n.rel) in InsertColumns(env, site)
  {
  }

  /** The identity the statement works with is the one the payload supplied. */
  lemma SuppliedIdent(env: Env, temps: Temps, tn: Nodes, site: Site, cols: set<Col>, a: nat)
    requires Owns(tn, temps, site.n) && SettledAt(env, tn, site, temps) && a in Sources(temps, tn, site)
             && env.ident(site.n.rel) in cols
    ensures IsOwn(temps, site.n, a) && RowKey(env, temps, site.n, a) != Null
    ensures Get(Resolved(env, temps, tn, site, cols)[a], env.ident(site.n.rel)) == RowKey(env, temps, site.n, a)
  {
    hide KeyColumns, ColumnValue, KeyLinked;
    IdentKey(env, site);
    assert Fixed(env, temps, tn, site, a, env.ident(site.n.rel));
    ResolvedFixed(env, temps, tn, site, cols, a, env.ident(site.n.rel));
  }

  // ---- the run leaves the temp rows alone -----------------------------------------------------------------

  lemma WriteBackSame(temps: Temps, from: map<nat, Row>, keys: set<Col>)
    requires forall a, c :: a in from && a in temps && c in keys ==>
                              c in temps[a].vals && Get(from[a], c) == temps[a].vals[c]
    ensures WriteBack(temps, from, keys) == temps
  {
    forall a | a in temps && a in from ensures temps[a].vals + Restrict(from[a], keys) == temps[a].vals {
    }
  }

  /** A column of a row found by its identity is the payload's. */
  lemma FoundSame(env: Env, s: State, tn: Nodes, site: Site, a: nat, c: Col)
    requires Owns(tn, s.temps, site.n) && SettledAt(env, tn, site, s.temps) && RunUpsert(env, s, tn, site).Some?
             && Upserts(site.n.mode)
    requires Keyed(TableOf(s.db, site.n.rel), env.ident(site.n.rel)) && a in Sources(s.temps, tn, site)
             && c in KeyColumns(env, site)
    ensures var res := Resolved(env, s.temps, tn, site, InsertColumns(env, site));
            var t := UpsertTable(env, TableOf(s.db, site.n.rel), site.n.rel, res, SetColumns(env, site));
            var k := Get(res[a], env.ident(site.n.rel));
            k in t && c in s.temps[a].vals && Get(t[k], c) == s.temps[a].vals[c]
  {
    hide UpsertTable, KeyLinked, ColumnValue, Keyed, KeyColumns, SetColumns, ColumnsFor;
    var ident := env.ident(site.n.rel);
    var cols := InsertColumns(env, site);
    var res := Resolved(env, s.temps, tn, site, cols);
    assert IsOwn(s.temps, site.n, a);
    assert Fixed(env, s.temps, tn, site, a, c);
    IdentKey(env, site);
    SetNoIdent(env, site);
    assert c in cols;
    ResolvedFixed(env, s.temps, tn, site, cols, a, c);
    StoredRow(env, TableOf(s.db, site.n.rel), site.n.rel, res, SetColumns(env, site), a);
  }

  lemma UpsertStays(env: Env, s: State, tn: Nodes, site: Site)
    requires Owns(tn, s.temps, site.n) && SettledAt(env, tn, site, s.temps) && RunUpsert(env, s, tn, site).Some?
             && Upserts(site.n.mode)
    requires Keyed(TableOf(s.db, site.n.rel), env.ident(site.n.rel))
    ensures RunUpsert(env, s, tn, site).value.temps == s.temps
  {
    hide UpsertTable, SettledAt, ColumnValue, Keyed, KeyColumns, SetColumns, InsertColumns, DistinctIdents, Owns,
         Sources, Resolved;
    var res := Resolved(env, s.temps, tn, site, InsertColumns(env, site));
    var t := UpsertTable(env, TableOf(s.db, site.n.rel), site.n.rel, res, SetColumns(env, site));
    var found := Found(t, res, env.ident(site.n.rel));
    forall a, c | a in found && a in s.temps && c in KeyColumns(env, site)
      ensures c in s.temps[a].vals && Get(found[a], c) == s.temps[a].vals[c]
    {
      FoundSame(env, s, tn, site, a, c);
    }
    WriteBackSame(s.temps, found, KeyColumns(env, site));
  }

  /** A node that does not upsert has no key column but its identity. */
  lemma OnlyIdent(env: Env, tn: Nodes, site: Site, temps: Temps, a: nat, c: Col)
    requires SettledAt(env, tn, site, temps) && !Upserts(site.n.mode) && IsOwn(temps, site.n, a)
             && c in KeyColumns(env, site)
    ensures c == env.ident(site.n.rel) && c in temps[a].vals && temps[a].vals[c] == RowKey(env, temps, site.n, a)
  {
    hide KeyColumns, KeyLinked, Supplied;
    assert Fixed(env, temps, tn, site, a, c);
  }

  /** Rows found under their own identities write the same identity back. */
  lemma IdentStays(env: Env, tn: Nodes, site: Site, temps: Temps, from: map<nat, Row>)
    requires SettledAt(env, tn, site, temps) && !Upserts(site.n.mode)
    requires forall a :: a in from ==> IsOwn(temps, site.n, a)
                                       && Get(from[a], env.ident(site.n.rel)) == RowKey(env, temps, site.n, a)
    ensures WriteBack(temps, from, KeyColumns(env, site)) == temps
  {
    hide KeyColumns, SettledAt;
    forall a, c | a in from && a in temps && c in KeyColumns(env, site)
      ensures c in temps[a].vals && Get(from[a], c) == temps[a].vals[c]
    {
      OnlyIdent(env, tn, site, temps, a, c);
    }
    WriteBackSame(temps, from, KeyColumns(env, site));
  }

  lemma InsertStays(env: Env, s: State, tn: Nodes, site: Site)
    requires Owns(tn, s.temps, site.n) && SettledAt(env, tn, site, s.temps) && RunInsert(env, s, tn, site).Some?
             && !Upserts(site.n.mode)
    ensures RunInsert(env, s, tn, site).value.temps == s.temps
  {
    hide InsertNew, SettledAt, KeyColumns, InsertColumns, Owns, Sources, Resolved, DistinctIdents;
    var cols := InsertColumns(env, site);
    var res := Resolved(env, s.temps, tn, site, cols);
    IdentKey(env, site);
    forall a | a in res
      ensures IsOwn(s.temps, site.n, a) && Get(res[a], env.ident(site.n.rel)) == RowKey(env, s.temps, site.n, a)
    {
      SuppliedIdent(env, s.temps, tn, site, cols, a);
    }
    IdentStays(env, tn, site, s.temps, res);
  }

  lemma MergeNewStays(env: Env, s: State, tn: Nodes, site: Site)
    requires Owns(tn, s.temps, site.n) && SettledAt(env, tn, site, s.temps) && RunMergeNew(env, s, tn, site).Some?
             && !Upserts(site.n.mode)
    requires Keyed(TableOf(s.db, site.n.rel), env.ident(site.n.rel))
    ensures RunMergeNew(env, s, tn, site).value.temps == s.temps
  {
    hide InsertNew, SettledAt, KeyColumns, InsertColumns, Sources, Resolved, Idents;
    var ident, cols := env.ident(site.n.rel), InsertColumns(env, site);
    var res := Resolved(env, s.temps, tn, site, cols);
    var t0 := TableOf(s.db, site.n.rel);
    var t := InsertNew(env, t0, site.n.rel, res);
    IdentKey(env, site);
    InsertKeyed(env, t0, site.n.rel, res);
    forall a | a in res ensures IsOwn(s.temps, site.n, a) && Get(res[a], ident) == RowKey(env, s.temps, site.n, a) {
      SuppliedIdent(env, s.temps, tn, site, cols, a);
    }
    IdentStays(env, tn, site, s.temps, Inserted(t0, t, res, ident));
    IdentStays(env, tn, site, s.temps, Recovered(t, s.temps, tn, site.n, ident));
  }

  lemma UpdateStays(env: Env, s: State, tn: Nodes, site: Site)
    requires Owns(tn, s.temps, site.n) && SettledAt(env, tn, site, s.temps) && !Upserts(site.n.mode)
    requires Keyed(TableOf(s.db, site.n.rel), env.ident(site.n.rel))
    ensures RunUpdate(env, s, tn, site).value.temps == s.temps
  {
    hide UpdateTable, SettledAt, KeyColumns, SetColumns, Sources, Resolved, Owns;
    var ident := env.ident(site.n.rel);
    var cols := SetColumns(env, site) + {ident};
    var res := Resolved(env, s.temps, tn, site, cols);
    var t := UpdateTable(env, TableOf(s.db, site.n.rel), site, res, s.temps);
    UpdateKeyed(env, TableOf(s.db, site.n.rel), site, res, s.temps);
    var found := UpdatedRows(t, res, ident, SetColumns(env, site));
    forall a | a in found ensures IsOwn(s.temps, site.n, a) && Get(found[a], ident) == RowKey(env, s.temps, site.n, a) {
      SuppliedIdent(env, s.temps, tn, site, cols, a);
    }
    IdentStays(env, tn, site, s.temps, found);
  }

  /** A statement over supplied keys writes nothing new back. */
  lemma RunStays(env: Env, s: State, tn: Nodes, site: Site)
    requires Owns(tn, s.temps, site.n) && SettledAt(env, tn, site, s.temps) && Run(env, s, tn, site).Some?
    requires Keyed(TableOf(s.db, site.n.rel), env.ident(site.n.rel))
    ensures Run(env, s, tn, site).value.temps == s.temps
  {
    hide Owns, SettledAt, RunUpsert, RunInsert, RunMergeNew, RunUpdate, Keyed, TableOf;
    match site.n.mode
    case INSERT => InsertStays(env, s, tn, site);
    case MERGE_NEW => MergeNewStays(env, s, tn, site);
    case UPSERT => UpsertStays(env, s, tn, site);
    case MERGE => UpsertStays(env, s, tn, site);
    case UPDATE_EXISTING => UpdateStays(env, s, tn, site);
    case MERGE_UPDATE => UpdateStays(env, s, tn, site);
    case _ =>
  }

  /** Every relation the tree writes stores its rows under their identities. */
  ghost predicate AllKeyed(env: Env, db: map<Rel, Table>, plan: seq<Site>) {
    forall d :: d in plan ==> Keyed(TableOf(db, d.n.rel), env.ident(d.n.rel))
  }

  ghost predicate AllSettled(env: Env, tn: Nodes, temps: Temps, plan: seq<Site>) {
    forall d :: d in plan ==> Owns(tn, temps, d.n) && SettledAt(env, tn, d, temps)
  }

  lemma {:induction false} WritesStay(env: Env, s: State, tn: Nodes, plan: seq<Site>)
    requires AllSettled(env, tn, s.temps, plan) && AllKeyed(env, s.db, plan) && Exec(env, s, tn, Writes(plan)).Some?
    ensures Exec(env, s, tn, Writes(plan)).value.temps == s.temps
    decreases |plan|
  {
    hide Run, TableOf, Keyed, Owns, SettledAt;
    if plan != [] {
      assert Writes(plan)[0] == Write(plan[0]) && Writes(plan)[1..] == Writes(plan[1..]);
      var s' := Run(env, s, tn, plan[0]).value;
      RunStays(env, s, tn, plan[0]);
      forall d | d in plan[1..] ensures Keyed(TableOf(s'.db, d.n.rel), env.ident(d.n.rel)) {
        RunGrows(env, s, tn, plan[0], d.n.rel);
      }
      WritesStay(env, s', tn, plan[1..]);
    }
  }

  // ---- rows a statement does not name -----------------------------------------------------------------------

  /** A row of a relation that a statement does not name is as it was. */
  ghost predicate SameRow(t: Table, t': Table, k: Value) {
    (k in t' <==> k in t) && (k in t ==> t'[k] == t[k])
  }

  ghost predicate Names(env: Env, temps: Temps, site: Site, rel: Rel, k: Value) {
    site.n.rel == rel && k in RowKeys(env, temps, site.n)
  }

  lemma NotNamed(env: Env, temps: Temps, tn: Nodes, site: Site, cols: set<Col>, k: Value)
    requires Owns(tn, temps, site.n) && SettledAt(env, tn, site, temps) && env.ident(site.n.rel) in cols
             && k !in RowKeys(env, temps, site.n)
    ensures k !in Idents(Resolved(env, temps, tn, site, cols), env.ident(site.n.rel))
  {
    hide Owns, SettledAt, Resolved, Sources, RowKey, RowKeys;
    var res := Resolved(env, temps, tn, site, cols);
    forall a | a in res ensures Get(res[a], env.ident(site.n.rel)) != k {
      SuppliedIdent(env, temps, tn, site, cols, a);
      MineKey(env, temps, site.n, a);
    }
  }

  lemma RunElsewhere(env: Env, s: State, tn: Nodes, site: Site, rel: Rel, k: Value)
    requires Owns(tn, s.temps, site.n) && SettledAt(env, tn, site, s.temps) && Run(env, s, tn, site).Some?
             && !Names(env, s.temps, site, rel, k)
    ensures SameRow(TableOf(s.db, rel), TableOf(Run(env, s, tn, site).value.db, rel), k)
  {
    hide Owns, SettledAt, RunUpsert, RunInsert, RunMergeNew, RunUpdate, RowKeys, SameRow, TableOf;
    if site.n.rel == rel {
      match site.n.mode
      case INSERT => InsertElsewhere(env, s, tn, site, k);
      case MERGE_NEW => InsertElsewhere(env, s, tn, site, k);
      case UPSERT => UpsertElsewhere(env, s, tn, site, k);
      case MERGE => UpsertElsewhere(env, s, tn, site, k);
      case UPDATE_EXISTING => UpdateElsewhere(env, s, tn, site, k);
      case MERGE_UPDATE => UpdateElsewhere(env, s, tn, site, k);
      case _ => SameRowSelf(TableOf(s.db, rel), k);
    } else {
      OtherRelation(env, s, tn, site, rel);
      SameRowSelf(TableOf(s.db, rel), k);
    }
  }

  lemma SameRowSelf(t: Table, k: Value)
    ensures SameRow(t, t, k)
  {
  }

  lemma OtherRelation(env: Env, s: State, tn: Nodes, site: Site, rel: Rel)
    requires Owns(tn, s.temps, site.n) && Run(env, s, tn, site).Some? && rel != site.n.rel
    ensures TableOf(Run(env, s, tn, site).value.db, rel) == TableOf(s.db, rel)
  {
    hide Run, Owns, TableOf;
    RunFrame(env, s, tn, site);
  }

  lemma UpsertElsewhere(env: Env, s: State, tn: Nodes, site: Site, k: Value)
    requires Owns(tn, s.temps, site.n) && SettledAt(env, tn, site, s.temps) && RunUpsert(env, s, tn, site).Some?
             && k !in RowKeys(env, s.temps, site.n)
    ensures SameRow(TableOf(s.db, site.n.rel), TableOf(RunUpsert(env, s, tn, site).value.db, site.n.rel), k)
  {
    hide Owns, SettledAt, WriteBack, InsertColumns, SetColumns, DistinctIdents, Found, Idents, Resolved, RowKeys,
         UpsertTable;
    var cols := InsertColumns(env, site);
    IdentKey(env, site);
    NotNamed(env, s.temps, tn, site, cols, k);
    UnwrittenRow(env, TableOf(s.db, site.n.rel), site.n.rel, Resolved(env, s.temps, tn, site, cols),
                 SetColumns(env, site), k);
  }

  lemma InsertElsewhere(env: Env, s: State, tn: Nodes, site: Site, k: Value)
    requires Owns(tn, s.temps, site.n) && SettledAt(env, tn, site, s.temps) && k !in RowKeys(env, s.temps, site.n)
    ensures RunInsert(env, s, tn, site).Some? ==>
              SameRow(TableOf(s.db, site.n.rel), TableOf(RunInsert(env, s, tn, site).value.db, site.n.rel), k)
    ensures RunMergeNew(env, s, tn, site).Some? ==>
              SameRow(TableOf(s.db, site.n.rel), TableOf(RunMergeNew(env, s, tn, site).value.db, site.n.rel), k)
  {
    hide Owns, SettledAt, WriteBack, InsertColumns, DistinctIdents, Inserted, Recovered, Idents, Resolved, RowKeys,
         InsertNew, SameRow;
    var cols := InsertColumns(env, site);
    IdentKey(env, site);
    NotNamed(env, s.temps, tn, site, cols, k);
    UninsertedRow(env, TableOf(s.db, site.n.rel), site.n.rel, Resolved(env, s.temps, tn, site, cols), k);
  }

  lemma UpdateElsewhere(env: Env, s: State, tn: Nodes, site: Site, k: Value)
    requires Owns(tn, s.temps, site.n) && SettledAt(env, tn, site, s.temps) && k !in RowKeys(env, s.temps, site.n)
    ensures SameRow(TableOf(s.db, site.n.rel), TableOf(RunUpdate(env, s, tn, site).value.db, site.n.rel), k)
  {
    hide Owns, SettledAt, WriteBack, SetColumns, Idents, Resolved, RowKeys, UpdateTable, SameRow;
    var cols := SetColumns(env, site) + {env.ident(site.n.rel)};
    NotNamed(env, s.temps, tn, site, cols, k);
    UnchangedRow(env, TableOf(s.db, site.n.rel), site, Resolved(env, s.temps, tn, site, cols), s.temps, k);
  }

  lemma UninsertedRow(env: Env, t: Table, rel: Rel, res: map<nat, Row>, k: Value)
    requires k !in Idents(res, env.ident(rel))
    ensures SameRow(t, InsertNew(env, t, rel, res), k)
  {
    hide NewRow;
  }

  lemma UnchangedRow(env: Env, t: Table, site: Site, res: map<nat, Row>, temps: Temps, k: Value)
    requires res.Keys <= temps.Keys && k !in Idents(res, env.ident(site.n.rel))
    ensures SameRow(t, UpdateTable(env, t, site, res, temps), k)
  {
    hide SetColumns, KeyLinked;
  }

  lemma {:induction false} WritesElsewhere(env: Env, s: State, tn: Nodes, plan: seq<Site>, rel: Rel, k: Value)
    requires AllSettled(env, tn, s.temps, plan) && AllKeyed(env, s.db, plan) && Exec(env, s, tn, Writes(plan)).Some?
    requires forall d :: d in plan ==> !Names(env, s.temps, d, rel, k)
    ensures SameRow(TableOf(s.db, rel), TableOf(Exec(env, s, tn, Writes(plan)).value.db, rel), k)
    decreases |plan|
  {
    hide Run, TableOf, Keyed, Owns, SettledAt, Names;
    if plan != [] {
      assert Writes(plan)[0] == Write(plan[0]) && Writes(plan)[1..] == Writes(plan[1..]);
      var s' := Run(env, s, tn, plan[0]).value;
      RunStays(env, s, tn, plan[0]);
      RunElsewhere(env, s, tn, plan[0], rel, k);
      forall d | d in plan[1..] ensures Keyed(TableOf(s'.db, d.n.rel), env.ident(d.n.rel)) {
        RunGrows(env, s, tn, plan[0], d.n.rel);
      }
      WritesElsewhere(env, s', tn, plan[1..], rel, k);
    }
  }

  // ---- what a node's own upsert stores ----------------------------------------------------------------------

  /** The row an upserted node stores for a row of its payload, from the payload and the table it finds. */
  ghost function Stored(env: Env, s: State, tn: Nodes, site: Site, a: nat): Row
    requires a in Sources(s.temps, tn, site)
  {
    var rel := site.n.rel;
    var k := RowKey(env, s.temps, site.n, a);
    var row := NewRow(env, rel, a, Resolved(env, s.temps, tn, site, InsertColumns(env, site))[a]);
    if k in TableOf(s.db, rel) then TableOf(s.db, rel)[k] + Restrict(row, SetColumns(env, site)) else row
  }

  lemma UpsertStores(env: Env, s: State, tn: Nodes, site: Site, a: nat)
    requires Owns(tn, s.temps, site.n) && SettledAt(env, tn, site, s.temps) && RunUpsert(env, s, tn, site).Some?
             && a in Sources(s.temps, tn, site)
    ensures var t := TableOf(RunUpsert(env, s, tn, site).value.db, site.n.rel);
            var k := RowKey(env, s.temps, site.n, a);
            k in t && t[k] == Stored(env, s, tn, site, a)
  {
    hide Owns, SettledAt, WriteBack, SetColumns, InsertColumns, Sources, NewRow, Found, Resolved;
    var cols := InsertColumns(env, site);
    var res := Resolved(env, s.temps, tn, site, cols);
    IdentKey(env, site);
    SuppliedIdent(env, s.temps, tn, site, cols, a);
    assert RowKey(env, s.temps, site.n, a) in Idents(res, env.ident(site.n.rel));
    assert Pick(res, env.ident(site.n.rel), RowKey(env, s.temps, site.n, a)) == a;
  }

  // ---- phase 1 on a shared relation ---------------------------------------------------------------------------

  /** All the statements of the payload, over supplied keys and keyed relations. */
  ghost predicate Sound(env: Env, t: Node, s: State, tn: Nodes, pop: set<nat>, from: nat) {
    && Numbered(t, from) && Ready(t, s.temps, tn, pop) && (forall b :: b in s.temps ==> s.temps[b].rowId == b)
    && Settled(env, t, tn, s.temps)
    && (forall d :: SiteIn(t, Root, d) ==> Keyed(TableOf(s.db, d.n.rel), env.ident(d.n.rel)))
    && Exec(env, s, tn, Writes(Plan1(t, Root, pop))).Some?
  }

  /** No two nodes on the relation hold the same identity. */
  ghost predicate Apart(env: Env, t: Node, temps: Temps, rel: Rel) {
    forall x, y, k :: SiteIn(t, Root, x) && SiteIn(t, Root, y) && Names(env, temps, x, rel, k)
                      && Names(env, temps, y, rel, k)
                      ==> x == y
  }

  lemma PlanSettled(env: Env, t: Node, s: State, tn: Nodes, pop: set<nat>, from: nat, plan: seq<Site>)
    requires Sound(env, t, s, tn, pop, from) && forall d :: d in plan ==> SiteIn(t, Root, d)
    ensures AllSettled(env, tn, s.temps, plan) && AllKeyed(env, s.db, plan)
  {
    hide SiteIn, Numbered, Owns, SettledAt, Keyed, Exec, Plan1;
  }

  /** The temp rows after phase 1 are those loaded. */
  lemma SettledPhase1(env: Env, t: Node, s0: State, tn: Nodes, pop: set<nat>, from: nat)
    requires Sound(env, t, s0, tn, pop, from)
    ensures Exec(env, s0, tn, Writes(Plan1(t, Root, pop))).value.temps == s0.temps
  {
    hide SiteIn, Exec, Writes, Plan1, AllSettled, AllKeyed, Numbered, Ready, Settled;
    Plan1Sites(t, Root, pop);
    PlanSettled(env, t, s0, tn, pop, from, Plan1(t, Root, pop));
    WritesStay(env, s0, tn, Plan1(t, Root, pop));
  }

  /** A row that no node names is as it was. */
  lemma UnnamedPhase1(env: Env, t: Node, s0: State, tn: Nodes, pop: set<nat>, from: nat, rel: Rel, k: Value)
    requires Sound(env, t, s0, tn, pop, from) && forall x :: SiteIn(t, Root, x) ==> !Names(env, s0.temps, x, rel, k)
    ensures SameRow(TableOf(s0.db, rel), TableOf(Exec(env, s0, tn, Writes(Plan1(t, Root, pop))).value.db, rel), k)
  {
    hide SiteIn, Exec, Writes, Plan1, AllSettled, AllKeyed, Numbered, Ready, Settled, Names, SameRow, TableOf;
    Plan1Sites(t, Root, pop);
    PlanSettled(env, t, s0, tn, pop, from, Plan1(t, Root, pop));
    WritesElsewhere(env, s0, tn, Plan1(t, Root, pop), rel, k);
  }

  /** A row of an upserted node, on a relation whose nodes hold different identities, is as its own upsert stores it. */
  lemma StoredPhase1(env: Env, t: Node, s0: State, tn: Nodes, pop: set<nat>, from: nat, site: Site, a: nat)
    requires Sound(env, t, s0, tn, pop, from) && Apart(env, t, s0.temps, site.n.rel)
    requires SiteIn(t, Root, site) && Upserts(site.n.mode) && IsOwn(s0.temps, site.n, a)
    ensures a in Sources(s0.temps, tn, site)
    ensures var t1 := TableOf(Exec(env, s0, tn, Writes(Plan1(t, Root, pop))).value.db, site.n.rel);
            var k := RowKey(env, s0.temps, site.n, a);
            && k != Null && k in t1 && t1[k] == Stored(env, s0, tn, site, a)
            && RowPresent(env, site, t1, s0.temps, s0.temps, a)
            && forall b :: IsOwn(s0.temps, site.n, b) && RowKey(env, s0.temps, site.n, b) == k ==> b == a
  {
    hide SiteIn, Plan1, Exec, TableOf, Keyed, Writes, Deletes, Run, Names, Numbered, Ready, Owns, AllSettled, AllKeyed,
         Stored, Sources, RowKeys, RowPresent, Settled, Sound, Apart, Joinable;
    SoundParts(env, t, s0, tn, pop, from);
    var plan, rel, k := Plan1(t, Root, pop), site.n.rel, RowKey(env, s0.temps, site.n, a);
    OwnPopulated(t, s0.temps, tn, pop, site, a);
    Plan1Has(t, Root, pop, site);
    Plan1Sites(t, Root, pop);
    Plan1Distinct(t, Root, pop, from);
    var j :| 0 <= j < |plan| && plan[j] == site;
    var first, last := plan[..j], plan[j + 1..];
    OtherIds(plan, j);
    AroundWrite(env, s0, tn, plan, j);
    PlanSettled(env, t, s0, tn, pop, from, plan);
    OthersNameOthers(env, t, s0.temps, site, a, first + last);
    var sA := Exec(env, s0, tn, Writes(first)).value;
    Before(env, t, s0, tn, pop, from, first, rel, k);
    Joins(t, s0.temps, s0.temps, tn, pop, site, from);
    OwnStored(env, t, s0, sA, tn, pop, from, site, a);
    var sB := Run(env, sA, tn, site).value;
    AfterOwn(env, t, s0, sB, tn, pop, from, last, rel, k);
    var s1 := Exec(env, sB, tn, Writes(last)).value;
    RowPresentSame(env, site, TableOf(sB.db, rel), TableOf(s1.db, rel), s0.temps, a);
  }

  lemma SoundParts(env: Env, t: Node, s: State, tn: Nodes, pop: set<nat>, from: nat)
    requires Sound(env, t, s, tn, pop, from)
    ensures Numbered(t, from) && Ready(t, s.temps, tn, pop) && (forall b :: b in s.temps ==> s.temps[b].rowId == b)
    ensures SameRows(s.temps, s.temps) && Exec(env, s, tn, Writes(Plan1(t, Root, pop))).Some?
  {
    hide SiteIn, Numbered, Ready, Keyed, Exec, Plan1;
  }

  lemma OthersNameOthers(env: Env, t: Node, temps: Temps, site: Site, a: nat, plan: seq<Site>)
    requires Apart(env, t, temps, site.n.rel) && SiteIn(t, Root, site) && IsOwn(temps, site.n, a)
    requires forall d :: d in plan ==> SiteIn(t, Root, d) && d.n.id != site.n.id
    ensures forall d :: d in plan ==> !Names(env, temps, d, site.n.rel, RowKey(env, temps, site.n, a))
  {
    hide SiteIn, RowKey, RowKeys;
    MineKey(env, temps, site.n, a);
    assert Names(env, temps, site, site.n.rel, RowKey(env, temps, site.n, a));
  }

  lemma Before(env: Env, t: Node, s0: State, tn: Nodes, pop: set<nat>, from: nat, first: seq<Site>, rel: Rel, k: Value)
    requires Sound(env, t, s0, tn, pop, from) && (forall d :: d in first ==> SiteIn(t, Root, d))
             && Exec(env, s0, tn, Writes(first)).Some?
    requires forall d :: d in first ==> !Names(env, s0.temps, d, rel, k)
    ensures var sA := Exec(env, s0, tn, Writes(first)).value;
            && sA.temps == s0.temps && SameRow(TableOf(s0.db, rel), TableOf(sA.db, rel), k)
            && (forall d :: SiteIn(t, Root, d) ==> Keyed(TableOf(sA.db, d.n.rel), env.ident(d.n.rel)))
  {
    hide SiteIn, Plan1, Exec, TableOf, Keyed, Writes, Names, Numbered, AllSettled, AllKeyed, SameRow, Ready, Settled;
    PlanSettled(env, t, s0, tn, pop, from, first);
    WritesStay(env, s0, tn, first);
    WritesElsewhere(env, s0, tn, first, rel, k);
    forall d | SiteIn(t, Root, d)
      ensures Keyed(TableOf(Exec(env, s0, tn, Writes(first)).value.db, d.n.rel), env.ident(d.n.rel))
    {
      WritesGrow(env, s0, tn, first, d.n.rel);
    }
  }

  /** The node's own upsert, over the temp rows as loaded and its row as it was. */
  lemma OwnStored(env: Env, t: Node, s0: State, sA: State, tn: Nodes, pop: set<nat>, from: nat, site: Site, a: nat)
    requires Sound(env, t, s0, tn, pop, from) && SiteIn(t, Root, site) && Upserts(site.n.mode)
             && IsOwn(s0.temps, site.n, a)
    requires sA.temps == s0.temps && Joinable(s0.temps, tn, site) && Run(env, sA, tn, site).Some?
    requires SameRow(TableOf(s0.db, site.n.rel), TableOf(sA.db, site.n.rel), RowKey(env, s0.temps, site.n, a))
    requires forall d :: SiteIn(t, Root, d) ==> Keyed(TableOf(sA.db, d.n.rel), env.ident(d.n.rel))
    ensures a in Sources(s0.temps, tn, site)
    ensures var sB := Run(env, sA, tn, site).value;
            var tB, k := TableOf(sB.db, site.n.rel), RowKey(env, s0.temps, site.n, a);
            && sB.temps == s0.temps && (forall d :: SiteIn(t, Root, d) ==>
                                                      Keyed(TableOf(sB.db, d.n.rel), env.ident(d.n.rel)))
            && k != Null && k in tB && tB[k] == Stored(env, s0, tn, site, a)
            && RowPresent(env, site, tB, s0.temps, s0.temps, a)
            && forall b :: IsOwn(s0.temps, site.n, b) && RowKey(env, s0.temps, site.n, b) == k ==> b == a
  {
    hide SiteIn, Plan1, Exec, Keyed, Writes, Numbered, Stored, Sources, Run, RunUpsert, RowPresent, TableOf, Owns,
         SameRow, RowKeys, OthersKept, SettledAt;
    ResolvedKeys(env, s0.temps, tn, site, a);
    SettledSite(env, t, s0, tn, pop, from, site);
    StepUpserts(env, sA, tn, site);
    RunStays(env, sA, tn, site);
    UpsertStores(env, sA, tn, site, a);
    SameStored(env, s0, sA, tn, site, a);
    UpsertOutcome(env, sA, tn, site);
    SuppliedIdent(env, s0.temps, tn, site, {env.ident(site.n.rel)}, a);
    forall d | SiteIn(t, Root, d) ensures Keyed(TableOf(Run(env, sA, tn, site).value.db, d.n.rel), env.ident(d.n.rel)) {
      RunGrows(env, sA, tn, site, d.n.rel);
    }
  }

  lemma SettledSite(env: Env, t: Node, s: State, tn: Nodes, pop: set<nat>, from: nat, site: Site)
    requires Sound(env, t, s, tn, pop, from) && SiteIn(t, Root, site)
    ensures Owns(tn, s.temps, site.n) && SettledAt(env, tn, site, s.temps)
  {
    hide SiteIn, Numbered, Owns, SettledAt, Keyed, Exec, Plan1;
  }

  lemma SameStored(env: Env, s0: State, sA: State, tn: Nodes, site: Site, a: nat)
    requires sA.temps == s0.temps && a in Sources(s0.temps, tn, site)
    requires SameRow(TableOf(s0.db, site.n.rel), TableOf(sA.db, site.n.rel), RowKey(env, s0.temps, site.n, a))
    ensures Stored(env, sA, tn, site, a) == Stored(env, s0, tn, site, a)
  {
    hide NewRow, Resolved, SetColumns, InsertColumns, Sources, TableOf;
  }

  lemma AfterOwn(env: Env, t: Node, s0: State, sB: State, tn: Nodes, pop: set<nat>, from: nat, last: seq<Site>,
                 rel: Rel, k: Value)
    requires Sound(env, t, s0, tn, pop, from) && (forall d :: d in last ==> SiteIn(t, Root, d))
             && Exec(env, sB, tn, Writes(last)).Some?
    requires sB.temps == s0.temps && forall d :: SiteIn(t, Root, d) ==>
                                                   Keyed(TableOf(sB.db, d.n.rel), env.ident(d.n.rel))
    requires forall d :: d in last ==> !Names(env, s0.temps, d, rel, k)
    ensures SameRow(TableOf(sB.db, rel), TableOf(Exec(env, sB, tn, Writes(last)).value.db, rel), k)
  {
    hide SiteIn, Plan1, Exec, TableOf, Keyed, Writes, Names, Numbered, AllSettled, SameRow, Ready, Settled;
    PlanSettled(env, t, s0, tn, pop, from, last);
    WritesElsewhere(env, sB, tn, last, rel, k);
  }

  lemma RowPresentSame(env: Env, site: Site, t: Table, t': Table, temps: Temps, a: nat)
    requires a in temps && RowPresent(env, site, t, temps, temps, a) && SameRow(t, t', RowKey(env, temps, site.n, a))
    ensures RowPresent(env, site, t', temps, temps, a)
  {
    hide Supplied;
  }

  // ---- both phases ------------------------------------------------------------------------------------------------

  /**
   What can be told before the run: each merging node on the relation, under a populated parent, has no payload parent
   for the row's foreign key, or has a row of the same identity in the payload itself.
   */
  ghost predicate Endures(env: Env, t: Node, s: State, tn: Nodes, pop: set<nat>, site: Site, a: nat) {
    && a in Sources(s.temps, tn, site)
    && AllSpare(env, s.temps, Plan2(t, Root, pop), site.n.rel, RowKey(env, s.temps, site.n, a),
                Stored(env, s, tn, site, a))
  }

  /**
   A supplied key is the key at the end, and a row is in its table at the end if and only if it endures; then it is as
   its node stored it.
   */
  lemma StaysIff(env: Env, t: Node, s0: State, tn: Nodes, pop: set<nat>, from: nat, site: Site, a: nat)
    requires Sound(env, t, s0, tn, pop, from) && Apart(env, t, s0.temps, site.n.rel)
    requires SiteIn(t, Root, site) && Upserts(site.n.mode) && IsOwn(s0.temps, site.n, a)
    ensures Exec(env, s0, tn, Queue(t, pop)).Some?
    ensures var s2 := Exec(env, s0, tn, Queue(t, pop)).value;
            var t2, k := TableOf(s2.db, site.n.rel), RowKey(env, s0.temps, site.n, a);
            && s2.temps == s0.temps
            && (k in t2 <==> Endures(env, t, s0, tn, pop, site, a))
            && (k in t2 ==> t2[k] == Stored(env, s0, tn, site, a) && RowPresent(env, site, t2, s0.temps, s0.temps, a))
            && forall b :: IsOwn(s0.temps, site.n, b) && RowKey(env, s0.temps, site.n, b) == k ==> b == a
  {
    hide SiteIn, Plan1, Plan2, Exec, TableOf, Writes, Deletes, Queue, Numbered, Ready, Sound, Apart, Stored, Sources,
         RowPresent, AllSpare, RowKey, IsOwn;
    SoundParts(env, t, s0, tn, pop, from);
    SettledPhase1(env, t, s0, tn, pop, from);
    StoredPhase1(env, t, s0, tn, pop, from, site, a);
    var k := RowKey(env, s0.temps, site.n, a);
    QueueSplit(env, t, s0, tn, pop, site.n.rel, k);
    var s1, s2 := Exec(env, s0, tn, Writes(Plan1(t, Root, pop))).value, Exec(env, s0, tn, Queue(t, pop)).value;
    if k in TableOf(s2.db, site.n.rel) {
      KeptPresent(env, site, TableOf(s1.db, site.n.rel), TableOf(s2.db, site.n.rel), s0.temps, a);
    }
  }

  lemma KeptPresent(env: Env, site: Site, t: Table, t': Table, temps: Temps, a: nat)
    requires a in temps && RowPresent(env, site, t, temps, temps, a)
    requires var k := RowKey(env, temps, site.n, a); k in t && k in t' && t'[k] == t[k]
    ensures RowPresent(env, site, t', temps, temps, a)
  {
    hide Supplied;
  }

  /** Some node of the payload holds the identity. */
  ghost predicate Named(env: Env, t: Node, temps: Temps, rel: Rel, k: Value) {
    exists x :: SiteIn(t, Root, x) && Names(env, temps, x, rel, k)
  }

  /** No merging node has a payload parent for the row. */
  ghost predicate Uncovered(temps: Temps, plan: seq<Site>, rel: Rel, r: Row) {
    forall d :: d in plan && d.n.rel == rel ==> !Covered(temps, d, r)
  }

  /** Rows nobody names are deleted in the scope of a merging node, and as they were elsewhere. */
  ghost predicate UnnamedRow(temps: Temps, plan: seq<Site>, rel: Rel, t0: Table, t2: Table, k: Value) {
    (k in t2 <==> k in t0 && Uncovered(temps, plan, rel, t0[k])) && (k in t2 ==> t2[k] == t0[k])
  }

  /** In the scope of a merging node only its own rows are left. */
  ghost predicate OwnInScope(env: Env, temps: Temps, d: Site, t2: Table) {
    forall k :: k in t2 && Covered(temps, d, t2[k]) ==> k in RowKeys(env, temps, d.n)
  }

  /** The outcome a payload promises of a relation, however many of its nodes write it. */
  ghost predicate SharedMerged(env: Env, t: Node, pop: set<nat>, rel: Rel, t0: Table, t2: Table, temps: Temps) {
    && (forall site :: SiteIn(t, Root, site) && site.n.rel == rel && Upserts(site.n.mode) ==>
                         Present(env, site, t2, temps, temps))
    && (forall k :: !Named(env, t, temps, rel, k) ==> UnnamedRow(temps, Plan2(t, Root, pop), rel, t0, t2, k))
    && (forall d :: d in Plan2(t, Root, pop) && d.n.rel == rel ==> OwnInScope(env, temps, d, t2))
  }

  ghost predicate AllEndure(env: Env, t: Node, s: State, tn: Nodes, pop: set<nat>, rel: Rel) {
    forall site, a :: SiteIn(t, Root, site) && site.n.rel == rel && Upserts(site.n.mode)
                      && IsOwn(s.temps, site.n, a)
                      ==> Endures(env, t, s, tn, pop, site, a)
  }

  /** The rows of one node are all present if and only if all of them endure. */
  lemma PresentIff(env: Env, t: Node, s0: State, tn: Nodes, pop: set<nat>, from: nat, site: Site)
    requires Sound(env, t, s0, tn, pop, from) && Apart(env, t, s0.temps, site.n.rel) && SiteIn(t, Root, site)
             && Upserts(site.n.mode)
    requires Exec(env, s0, tn, Queue(t, pop)).Some?
    ensures Present(env, site, TableOf(Exec(env, s0, tn, Queue(t, pop)).value.db, site.n.rel), s0.temps, s0.temps)
            <==> forall a :: IsOwn(s0.temps, site.n, a) ==> Endures(env, t, s0, tn, pop, site, a)
  {
    hide SiteIn, Exec, TableOf, Queue, Sound, Apart, Stored, Endures, RowKey;
    var t2 := TableOf(Exec(env, s0, tn, Queue(t, pop)).value.db, site.n.rel);
    forall a | IsOwn(s0.temps, site.n, a)
      ensures RowPresent(env, site, t2, s0.temps, s0.temps, a) <==> Endures(env, t, s0, tn, pop, site, a)
      ensures forall b :: IsOwn(s0.temps, site.n, b)
                          && RowKey(env, s0.temps, site.n, b) == RowKey(env, s0.temps, site.n, a)
                          ==> b == a
    {
      StaysIff(env, t, s0, tn, pop, from, site, a);
      InTable(env, site, t2, s0.temps, a);
    }
    hide RowPresent;
  }

  lemma InTable(env: Env, site: Site, t: Table, temps: Temps, a: nat)
    requires a in temps
    ensures RowPresent(env, site, t, temps, temps, a) ==> RowKey(env, temps, site.n, a) in t
  {
    hide Supplied, RowKey;
  }

  lemma UnnamedEnd(env: Env, t: Node, s0: State, tn: Nodes, pop: set<nat>, from: nat, rel: Rel, k: Value)
    requires Sound(env, t, s0, tn, pop, from) && !Named(env, t, s0.temps, rel, k)
             && Exec(env, s0, tn, Queue(t, pop)).Some?
    ensures UnnamedRow(s0.temps, Plan2(t, Root, pop), rel, TableOf(s0.db, rel),
                       TableOf(Exec(env, s0, tn, Queue(t, pop)).value.db, rel), k)
  {
    hide SiteIn, Plan1, Plan2, Exec, TableOf, Writes, Deletes, Queue, Numbered, Ready, Sound, Covered, Names, RowKeys;
    SoundParts(env, t, s0, tn, pop, from);
    SettledPhase1(env, t, s0, tn, pop, from);
    UnnamedPhase1(env, t, s0, tn, pop, from, rel, k);
    QueueSplit(env, t, s0, tn, pop, rel, k);
    Plan2Sites(t, Root, pop);
    var t0 := TableOf(s0.db, rel);
    if k in t0 {
      UnnamedSpared(env, t, s0.temps, Plan2(t, Root, pop), rel, k, t0[k]);
    }
  }

  lemma UnnamedSpared(env: Env, t: Node, temps: Temps, plan: seq<Site>, rel: Rel, k: Value, r: Row)
    requires !Named(env, t, temps, rel, k) && forall d :: d in plan ==> SiteIn(t, Root, d)
    ensures AllSpare(env, temps, plan, rel, k, r) <==> Uncovered(temps, plan, rel, r)
  {
    hide SiteIn, Covered, RowKeys;
    forall d | d in plan && d.n.rel == rel ensures k !in RowKeys(env, temps, d.n) {
      assert !Names(env, temps, d, rel, k);
    }
  }

  lemma ScopeEnd(env: Env, t: Node, s0: State, tn: Nodes, pop: set<nat>, from: nat, rel: Rel, d: Site)
    requires Sound(env, t, s0, tn, pop, from) && Exec(env, s0, tn, Queue(t, pop)).Some? && d in Plan2(t, Root, pop)
             && d.n.rel == rel
    ensures OwnInScope(env, s0.temps, d, TableOf(Exec(env, s0, tn, Queue(t, pop)).value.db, rel))
  {
    hide SiteIn, Plan1, Plan2, Exec, TableOf, Writes, Deletes, Queue, Numbered, Ready, Sound, Covered, RowKeys;
    SoundParts(env, t, s0, tn, pop, from);
    SettledPhase1(env, t, s0, tn, pop, from);
    var t2 := TableOf(Exec(env, s0, tn, Queue(t, pop)).value.db, rel);
    forall k | k in t2 && Covered(s0.temps, d, t2[k]) ensures k in RowKeys(env, s0.temps, d.n) {
      QueueSplit(env, t, s0, tn, pop, rel, k);
      assert Spares(env, s0.temps, d, k, t2[k]);
    }
  }

  lemma QueueRuns(env: Env, t: Node, s0: State, tn: Nodes, pop: set<nat>, from: nat)
    requires Sound(env, t, s0, tn, pop, from)
    ensures Exec(env, s0, tn, Queue(t, pop)).Some?
  {
    hide SiteIn, Plan1, Plan2, Exec, Writes, Deletes, Queue, Numbered, Ready, Sound, LeftIff;
    SoundParts(env, t, s0, tn, pop, from);
    QueueSplit(env, t, s0, tn, pop, 0, Null);
  }

  /**
   The merge outcome on any relation whose nodes supply different identities, however many they are: every payload row
   is there with its values under its own parent, nothing else is left in the scope of a merging node, and all other
   rows are as they were, if and only if every payload row endures, which can be told before the run.
   */
  lemma SharedMergedIff(env: Env, t: Node, s0: State, tn: Nodes, pop: set<nat>, from: nat, rel: Rel)
    requires Sound(env, t, s0, tn, pop, from) && Apart(env, t, s0.temps, rel)
    ensures Exec(env, s0, tn, Queue(t, pop)).Some?
    ensures SharedMerged(env, t, pop, rel, TableOf(s0.db, rel), TableOf(Exec(env, s0, tn, Queue(t, pop)).value.db, rel),
                         s0.temps)
            <==> AllEndure(env, t, s0, tn, pop, rel)
  {
    hide SiteIn, Plan2, Exec, TableOf, Queue, Sound, Apart, Endures, Present, UnnamedRow, OwnInScope, Named, IsOwn;
    QueueRuns(env, t, s0, tn, pop, from);
    var t2 := TableOf(Exec(env, s0, tn, Queue(t, pop)).value.db, rel);
    forall site | SiteIn(t, Root, site) && site.n.rel == rel && Upserts(site.n.mode)
      ensures Present(env, site, t2, s0.temps, s0.temps)
              <==> forall a :: IsOwn(s0.temps, site.n, a) ==> Endures(env, t, s0, tn, pop, site, a)
    {
      PresentIff(env, t, s0, tn, pop, from, site);
    }
    forall k | !Named(env, t, s0.temps, rel, k)
      ensures UnnamedRow(s0.temps, Plan2(t, Root, pop), rel, TableOf(s0.db, rel), t2, k)
    {
      UnnamedEnd(env, t, s0, tn, pop, from, rel, k);
    }
    forall d | d in Plan2(t, Root, pop) && d.n.rel == rel ensures OwnInScope(env, s0.temps, d, t2) {
      ScopeEnd(env, t, s0, tn, pop, from, rel, d);
    }
  }

  // ---- the two common cases -----------------------------------------------------------------------------------------

  /** A relation one node writes always comes out merged. */
  lemma OneWriterEndures(env: Env, t: Node, s0: State, tn: Nodes, pop: set<nat>, from: nat, site: Site)
    requires Sound(env, t, s0, tn, pop, from) && SiteIn(t, Root, site) && OnlyWriter(t, site)
    ensures AllEndure(env, t, s0, tn, pop, site.n.rel) && Apart(env, t, s0.temps, site.n.rel)
  {
    hide SiteIn, Plan1, Plan2, Exec, Numbered, Covered, Stored, Sources, RowKey, RowKeys, SettledAt, Keyed, Owns;
    Plan2Sites(t, Root, pop);
    forall x, a | SiteIn(t, Root, x) && x.n.rel == site.n.rel && Upserts(x.n.mode) && IsOwn(s0.temps, x.n, a)
      ensures Endures(env, t, s0, tn, pop, x, a)
    {
      Joins(t, s0.temps, s0.temps, tn, pop, x, from);
      ResolvedKeys(env, s0.temps, tn, x, a);
      SuppliedIdent(env, s0.temps, tn, x, {env.ident(x.n.rel)}, a);
      MineKey(env, s0.temps, x.n, a);
    }
  }

  /** A merging node spares a row if and only if the row points at no payload parent: other nodes do not name it. */
  lemma NotMine(env: Env, t: Node, temps: Temps, x: Site, y: Site, a: nat, r: Row)
    requires SiteIn(t, Root, x) && SiteIn(t, Root, y) && x != y && x.n.rel == y.n.rel && Apart(env, t, temps, x.n.rel)
             && IsOwn(temps, x.n, a)
    ensures Spares(env, temps, y, RowKey(env, temps, x.n, a), r) <==> !Covered(temps, y, r)
  {
    hide SiteIn, Covered, RowKeys, RowKey;
    MineKey(env, temps, x.n, a);
    var k := RowKey(env, temps, x.n, a);
    assert Names(env, temps, x, x.n.rel, k);
    assert !Names(env, temps, y, x.n.rel, k);
  }

  /**
   A relation that a root shares with an incoming merging child, and with nobody else: the child's rows stay, and a
   row of the root stays if and only if it does not point at a root row of the payload.
   */
  lemma SharedWithRoot(env: Env, t: Node, s0: State, tn: Nodes, pop: set<nat>, from: nat, kid: Node)
    requires Sound(env, t, s0, tn, pop, from) && Apart(env, t, s0.temps, t.rel) && Placed(t, Root) && Upserts(t.mode)
    requires SiteIn(t, Root, Site(kid, In(t))) && HasDelete(kid.mode) && kid.rel == t.rel
    requires forall d :: SiteIn(t, Root, d) && d.n.rel == t.rel ==> d == Site(kid, In(t)) || d == Site(t, Root)
    ensures Exec(env, s0, tn, Queue(t, pop)).Some?
    ensures var t2 := TableOf(Exec(env, s0, tn, Queue(t, pop)).value.db, t.rel);
            && (Upserts(kid.mode) ==> forall a :: IsOwn(s0.temps, kid, a) ==> RowKey(env, s0.temps, kid, a) in t2)
            && forall a :: IsOwn(s0.temps, t, a) ==>
                 && a in Sources(s0.temps, tn, Site(t, Root))
                 && (RowKey(env, s0.temps, t, a) in t2
                     <==> Get(Stored(env, s0, tn, Site(t, Root), a), kid.local) !in KeysOf(s0.temps, t, kid.distant))
  {
    hide SiteIn, Plan1, Plan2, Exec, TableOf, Queue, Numbered, Ready, Sound, Apart, Stored, Sources, RowKeys, RowKey,
         Placed, KeysOf, RowPresent;
    SoundParts(env, t, s0, tn, pop, from);
    QueueRuns(env, t, s0, tn, pop, from);
    ReadyClosed(t, s0.temps, tn, pop);
    PlacedDeletes(t, pop, Site(kid, In(t)));
    PlacedDeletes(t, pop, Site(t, Root));
    Plan2Sites(t, Root, pop);
    var own, child := Site(t, Root), Site(kid, In(t));
    if Upserts(kid.mode) {
      forall a | IsOwn(s0.temps, kid, a)
        ensures RowKey(env, s0.temps, kid, a) in TableOf(Exec(env, s0, tn, Queue(t, pop)).value.db, t.rel)
      {
        StaysIff(env, t, s0, tn, pop, from, child, a);
        StoredPhase1(env, t, s0, tn, pop, from, child, a);
        MineKey(env, s0.temps, kid, a);
      }
    }
    RootSite(t, kid);
    forall a | IsOwn(s0.temps, t, a)
      ensures a in Sources(s0.temps, tn, own)
      ensures RowKey(env, s0.temps, t, a) in TableOf(Exec(env, s0, tn, Queue(t, pop)).value.db, t.rel)
              <==> Get(Stored(env, s0, tn, own, a), kid.local) !in KeysOf(s0.temps, t, kid.distant)
    {
      OwnPopulated(t, s0.temps, tn, pop, own, a);
      StaysIff(env, t, s0, tn, pop, from, own, a);
      StoredPhase1(env, t, s0, tn, pop, from, own, a);
      NotMine(env, t, s0.temps, own, child, a, Stored(env, s0, tn, own, a));
    }
  }

  lemma RootSite(t: Node, kid: Node)
    requires SiteIn(t, Root, Site(kid, In(t)))
    ensures SiteIn(t, Root, Site(t, Root))
  {
  }

  /**
   Two incoming nodes joined to one parent by the same column of one relation: the rows of either are deleted by the
   merge of the other, wherever the parent has a key.
   */
  lemma SiblingsErase(env: Env, t: Node, s0: State, tn: Nodes, pop: set<nat>, from: nat, x: Site, y: Site, a: nat)
    requires Sound(env, t, s0, tn, pop, from) && Apart(env, t, s0.temps, x.n.rel) && SiteIn(t, Root, x)
             && SiteIn(t, Root, y) && x != y
    requires x.link.In? && y.link == x.link && y.n.rel == x.n.rel && y.n.local == x.n.local
             && y.n.distant == x.n.distant
    requires Upserts(x.n.mode) && HasDelete(y.n.mode) && IsOwn(s0.temps, x.n, a)
    ensures Exec(env, s0, tn, Queue(t, pop)).Some? && PointsAt(s0.temps, a, x.link.parent)
    ensures Get(s0.temps[s0.temps[a].parent.value].vals, x.n.distant) != Null
            ==> RowKey(env, s0.temps, x.n, a) !in TableOf(Exec(env, s0, tn, Queue(t, pop)).value.db, x.n.rel)
  {
    hide SiteIn, Plan1, Plan2, Exec, TableOf, Queue, Numbered, Sound, Apart, Stored, Sources, RowKeys, RowKey, Owns,
         Supplied;
    SoundParts(env, t, s0, tn, pop, from);
    StaysIff(env, t, s0, tn, pop, from, x, a);
    OwnPopulated(t, s0.temps, tn, pop, x, a);
    Plan2Has(t, Root, pop, y);
    var k := RowKey(env, s0.temps, x.n, a);
    if k in TableOf(Exec(env, s0, tn, Queue(t, pop)).value.db, x.n.rel) {
      NotMine(env, t, s0.temps, x, y, a, Stored(env, s0, tn, x, a));
    }
  }
}
