/**
 Relations that several written nodes share: exactly which rows both phases leave. A merge of one node also
 deletes the rows another node of the payload has just written, unless it names them or they are out of its scope.
 */
module WriteShared {
  import opened Wrappers
  import opened WriteTree
  import opened WriteStatements
  import opened WritePhases
  import opened WriteMerge
  import opened WriteOutcome

  // ---- phase 2 ------------------------------------------------------------------------------------------

  /** A node's delete leaves a row: it is out of scope, or a row of the node has its identity. */
  ghost predicate Spares(env: Env, temps: Temps, d: Site, k: Value, r: Row) {
    !Covered(temps, d, r) || (k != Null && k in RowKeys(env, temps, d.n))
  }

  ghost predicate AllSpare(env: Env, temps: Temps, plan: seq<Site>, rel: Rel, k: Value, r: Row) {
    forall d :: d in plan && d.n.rel == rel ==> Spares(env, temps, d, k, r)
  }

  ghost predicate Scoped(tn: Nodes, temps: Temps, plan: seq<Site>) {
    forall d :: d in plan ==> Owns(tn, temps, d.n) && (!d.link.Root? ==> Owns(tn, temps, d.link.parent))
  }

  /** Before and after some deletes: a row is left if and only if all of them spare it, and then as it was. */
  ghost predicate LeftIff(before: Table, after: Table, k: Value, spared: Row -> bool) {
    && (k in after <==> k in before && spared(before[k]))
    && (k in after ==> after[k] == before[k])
  }

  lemma OneDeleteIff(env: Env, s: State, tn: Nodes, d: Site, rel: Rel, k: Value)
    requires Scoped(tn, s.temps, [d])
    ensures var s' := RunDelete(env, s, tn, d);
            s'.temps == s.temps && LeftIff(TableOf(s.db, rel), TableOf(s'.db, rel), k,
                                           r => AllSpare(env, s.temps, [d], rel, k, r))
  {
    hide Covered, InScope, Kept, RowKeys, Owns;
    assert d in [d];
    var t := TableOf(s.db, rel);
    if k in t {
      DeleteScope(env, s, tn, d, t[k]);
    }
  }

  lemma {:induction false} DeletesIff(env: Env, s: State, tn: Nodes, plan: seq<Site>, rel: Rel, k: Value)
    requires Scoped(tn, s.temps, plan)
    ensures var r := Exec(env, s, tn, Deletes(plan));
            && r.Some? && r.value.temps == s.temps
            && LeftIff(TableOf(s.db, rel), TableOf(r.value.db, rel), k,
                       row => AllSpare(env, s.temps, plan, rel, k, row))
    decreases |plan|
  {
    hide RunDelete, TableOf, Spares, Owns;
    if plan != [] {
      var d, rest := plan[0], plan[1..];
      assert Deletes(plan)[0] == Delete(d) && Deletes(plan)[1..] == Deletes(rest);
      var s' := RunDelete(env, s, tn, d);
      OneDeleteIff(env, s, tn, d, rel, k);
      DeletesIff(env, s', tn, rest, rel, k);
      assert plan == [d] + rest;
    }
  }

  // ---- phase 1 ------------------------------------------------------------------------------------------

  lemma SetNoIdent(env: Env, site: Site)
    ensures env.ident(site.n.rel) !in SetColumns(env, site)
  {
  }

  lemma UpsertKeyed(env: Env, t: Table, rel: Rel, res: map<nat, Row>, columns: set<Col>)
    requires DistinctIdents(res, env.ident(rel)) && Keyed(t, env.ident(rel)) && env.ident(rel) !in columns
    requires forall a :: a in res ==> env.ident(rel) in res[a]
    ensures Keyed(UpsertTable(env, t, rel, res, columns), env.ident(rel))
  {
    hide UpsertTable;
    var t' := UpsertTable(env, t, rel, res, columns);
    forall k | k in t' ensures Get(t'[k], env.ident(rel)) == k {
      if k in Idents(res, env.ident(rel)) {
        StoredRow(env, t, rel, res, columns, Pick(res, env.ident(rel), k));
      } else {
        UnwrittenRow(env, t, rel, res, columns, k);
      }
    }
  }

  lemma UnwrittenRow(env: Env, t: Table, rel: Rel, res: map<nat, Row>, columns: set<Col>, k: Value)
    requires k !in Idents(res, env.ident(rel))
    ensures k in UpsertTable(env, t, rel, res, columns) <==> k in t
    ensures k in t ==> UpsertTable(env, t, rel, res, columns)[k] == t[k]
  {
  }

  lemma InsertKeyed(env: Env, t: Table, rel: Rel, res: map<nat, Row>)
    requires Keyed(t, env.ident(rel)) && forall a :: a in res ==> env.ident(rel) in res[a]
    ensures Keyed(InsertNew(env, t, rel, res), env.ident(rel))
  {
    hide NewRow;
    var ident := env.ident(rel);
    forall k | k in InsertNew(env, t, rel, res) && k !in t ensures Get(InsertNew(env, t, rel, res)[k], ident) == k {
      NewRowIdent(env, rel, Pick(res, ident, k), res[Pick(res, ident, k)], ident);
    }
  }

  lemma NewRowIdent(env: Env, rel: Rel, a: nat, r: Row, c: Col)
    requires c in r
    ensures Get(NewRow(env, rel, a, r), c) == r[c]
  {
  }

  lemma UpdateKeyed(env: Env, t: Table, site: Site, res: map<nat, Row>, temps: Temps)
    requires res.Keys <= temps.Keys && Keyed(t, env.ident(site.n.rel))
    ensures Keyed(UpdateTable(env, t, site, res, temps), env.ident(site.n.rel))
  {
    hide SetColumns, KeyLinked, Idents;
    SetNoIdent(env, site);
  }

  /** A table that only gains rows, each stored under its identity. */
  ghost predicate Grown(env: Env, rel: Rel, t: Table, t': Table) {
    t.Keys <= t'.Keys && (Keyed(t, env.ident(rel)) ==> Keyed(t', env.ident(rel)))
  }

  lemma UpsertGrows(env: Env, s: State, tn: Nodes, site: Site)
    requires RunUpsert(env, s, tn, site).Some?
    ensures Grown(env, site.n.rel, TableOf(s.db, site.n.rel), TableOf(RunUpsert(env, s, tn, site).value.db, site.n.rel))
  {
    hide Keyed, WriteBack, SetColumns, ColumnsFor, DistinctIdents, Sources, Found;
    var t := TableOf(s.db, site.n.rel);
    SetNoIdent(env, site);
    assert env.ident(site.n.rel) in InsertColumns(env, site);
    if Keyed(t, env.ident(site.n.rel)) {
      UpsertKeyed(env, t, site.n.rel, Resolved(env, s.temps, tn, site, InsertColumns(env, site)),
                  SetColumns(env, site));
    }
  }

  lemma InsertGrows(env: Env, t: Table, temps: Temps, tn: Nodes, site: Site)
    ensures Grown(env, site.n.rel, t, InsertNew(env, t, site.n.rel,
                                                Resolved(env, temps, tn, site, InsertColumns(env, site))))
  {
    hide Keyed, ColumnsFor, Sources;
    assert env.ident(site.n.rel) in InsertColumns(env, site);
    if Keyed(t, env.ident(site.n.rel)) {
      InsertKeyed(env, t, site.n.rel, Resolved(env, temps, tn, site, InsertColumns(env, site)));
    }
  }

  lemma UpdateGrows(env: Env, s: State, tn: Nodes, site: Site)
    ensures Grown(env, site.n.rel, TableOf(s.db, site.n.rel), TableOf(RunUpdate(env, s, tn, site).value.db, site.n.rel))
  {
    hide Keyed, WriteBack, SetColumns, Sources;
    var t := TableOf(s.db, site.n.rel);
    if Keyed(t, env.ident(site.n.rel)) {
      UpdateKeyed(env, t, site, Resolved(env, s.temps, tn, site, SetColumns(env, site) + {env.ident(site.n.rel)}),
                  s.temps);
    }
  }

  /** No write statement removes a row, and rows stay stored under their identities. */
  lemma RunGrows(env: Env, s: State, tn: Nodes, site: Site, rel: Rel)
    requires Run(env, s, tn, site).Some? && Keyed(TableOf(s.db, rel), env.ident(rel))
    ensures var s' := Run(env, s, tn, site).value;
            TableOf(s.db, rel).Keys <= TableOf(s'.db, rel).Keys && Keyed(TableOf(s'.db, rel), env.ident(rel))
  {
    hide Keyed, WriteBack, SetColumns, InsertColumns, DistinctIdents, Found, Inserted, Recovered, Idents, InsertNew,
         UpsertTable, UpdateTable;
    if rel == site.n.rel {
      match site.n.mode
      case INSERT => InsertGrows(env, TableOf(s.db, rel), s.temps, tn, site);
      case MERGE_NEW => InsertGrows(env, TableOf(s.db, rel), s.temps, tn, site);
      case UPSERT => UpsertGrows(env, s, tn, site);
      case MERGE => UpsertGrows(env, s, tn, site);
      case UPDATE_EXISTING => UpdateGrows(env, s, tn, site);
      case MERGE_UPDATE => UpdateGrows(env, s, tn, site);
      case _ =>
    }
  }

  lemma TableKeys(env: Env, t: Table, rel: Rel, res: map<nat, Row>, columns: set<Col>)
    ensures UpsertTable(env, t, rel, res, columns).Keys == t.Keys + Idents(res, env.ident(rel))
    ensures InsertNew(env, t, rel, res).Keys == t.Keys + Idents(res, env.ident(rel))
  {
    hide NewRow, Idents, Restrict;
  }

  lemma UpdatedKeys(env: Env, t: Table, site: Site, res: map<nat, Row>, temps: Temps)
    requires res.Keys <= temps.Keys
    ensures UpdateTable(env, t, site, res, temps).Keys == t.Keys
  {
    hide SetColumns, KeyLinked, Idents;
  }

  lemma UpsertNoNull(env: Env, s: State, tn: Nodes, site: Site, rel: Rel)
    requires RunUpsert(env, s, tn, site).Some? && Null !in TableOf(s.db, rel)
    ensures Null !in TableOf(RunUpsert(env, s, tn, site).value.db, rel)
  {
    hide WriteBack, SetColumns, InsertColumns, KeyColumns, Resolved, Idents, UpsertTable, Found;
    TableKeys(env, TableOf(s.db, site.n.rel), site.n.rel, Resolved(env, s.temps, tn, site, InsertColumns(env, site)),
              SetColumns(env, site));
  }

  lemma InsertNoNull(env: Env, s: State, tn: Nodes, site: Site, rel: Rel)
    requires RunInsert(env, s, tn, site).Some? && Null !in TableOf(s.db, rel)
    ensures Null !in TableOf(RunInsert(env, s, tn, site).value.db, rel)
  {
    hide WriteBack, SetColumns, InsertColumns, KeyColumns, Resolved, Idents, InsertNew;
    TableKeys(env, TableOf(s.db, site.n.rel), site.n.rel, Resolved(env, s.temps, tn, site, InsertColumns(env, site)),
              SetColumns(env, site));
  }

  lemma MergeNewNoNull(env: Env, s: State, tn: Nodes, site: Site, rel: Rel)
    requires RunMergeNew(env, s, tn, site).Some? && Null !in TableOf(s.db, rel)
    ensures Null !in TableOf(RunMergeNew(env, s, tn, site).value.db, rel)
  {
    hide WriteBack, SetColumns, InsertColumns, KeyColumns, Resolved, Idents, InsertNew, Inserted, Recovered;
    TableKeys(env, TableOf(s.db, site.n.rel), site.n.rel, Resolved(env, s.temps, tn, site, InsertColumns(env, site)),
              SetColumns(env, site));
  }

  lemma UpdateNoNull(env: Env, s: State, tn: Nodes, site: Site, rel: Rel)
    requires RunUpdate(env, s, tn, site).Some? && Null !in TableOf(s.db, rel)
    ensures Null !in TableOf(RunUpdate(env, s, tn, site).value.db, rel)
  {
    hide WriteBack, SetColumns, InsertColumns, KeyColumns, Resolved, Idents, UpdateTable, Pick;
    UpdatedKeys(env, TableOf(s.db, site.n.rel), site,
                Resolved(env, s.temps, tn, site, SetColumns(env, site) + {env.ident(site.n.rel)}), s.temps);
  }

  /** Nor does one store a row without an identity. */
  lemma RunNoNull(env: Env, s: State, tn: Nodes, site: Site, rel: Rel)
    requires Run(env, s, tn, site).Some? && Null !in TableOf(s.db, rel)
    ensures Null !in TableOf(Run(env, s, tn, site).value.db, rel)
  {
    hide RunUpsert, RunInsert, RunMergeNew, RunUpdate, TableOf;
    match site.n.mode
    case INSERT => InsertNoNull(env, s, tn, site, rel);
    case MERGE_NEW => MergeNewNoNull(env, s, tn, site, rel);
    case UPSERT => UpsertNoNull(env, s, tn, site, rel);
    case MERGE => UpsertNoNull(env, s, tn, site, rel);
    case UPDATE_EXISTING => UpdateNoNull(env, s, tn, site, rel);
    case MERGE_UPDATE => UpdateNoNull(env, s, tn, site, rel);
    case _ =>
  }

  lemma {:induction false} WritesGrow(env: Env, s: State, tn: Nodes, plan: seq<Site>, rel: Rel)
    requires Exec(env, s, tn, Writes(plan)).Some? && Keyed(TableOf(s.db, rel), env.ident(rel))
    ensures var s' := Exec(env, s, tn, Writes(plan)).value;
            TableOf(s.db, rel).Keys <= TableOf(s'.db, rel).Keys && Keyed(TableOf(s'.db, rel), env.ident(rel))
    decreases |plan|
  {
    hide Run, TableOf, Keyed;
    if plan != [] {
      assert Writes(plan)[0] == Write(plan[0]) && Writes(plan)[1..] == Writes(plan[1..]);
      RunGrows(env, s, tn, plan[0], rel);
      WritesGrow(env, Run(env, s, tn, plan[0]).value, tn, plan[1..], rel);
    }
  }

  /** The modes whose statement writes every row of the payload. */
  predicate Upserts(m: Mode) {
    m == MERGE || m == UPSERT
  }

  lemma StepUpserts(env: Env, s: State, tn: Nodes, site: Site)
    requires Upserts(site.n.mode) && Run(env, s, tn, site).Some?
    ensures Exec(env, s, tn, [Write(site)]) == Run(env, s, tn, site) == RunUpsert(env, s, tn, site)
  {
    hide RunUpsert, Exec, RunInsert, RunMergeNew, RunUpdate;
    OneStep(env, s, tn, Write(site));
  }

  /**
   After phase 1 every row of an upserted node is stored under the key its temp row holds, whoever else writes to the
   relation.
   */
  lemma WrittenStays(env: Env, t: Node, s0: State, tn: Nodes, pop: set<nat>, site: Site, from: nat, a: nat)
    requires Numbered(t, from) && Ready(t, s0.temps, tn, pop) && forall b :: b in s0.temps ==> s0.temps[b].rowId == b
    requires SiteIn(t, Root, site) && Upserts(site.n.mode) && IsOwn(s0.temps, site.n, a)
    requires Keyed(TableOf(s0.db, site.n.rel), env.ident(site.n.rel))
    requires Exec(env, s0, tn, Writes(Plan1(t, Root, pop))).Some?
    ensures var s1 := Exec(env, s0, tn, Writes(Plan1(t, Root, pop))).value;
            && SameRows(s0.temps, s1.temps) && IsOwn(s1.temps, site.n, a)
            && RowKey(env, s1.temps, site.n, a) != Null
            && RowKey(env, s1.temps, site.n, a) in TableOf(s1.db, site.n.rel)
  {
    hide SiteIn, Plan1, Numbered, Exec, TableOf, Keyed, Writes, SameRows, Deletes, Step, Run, Ready, RowKey, Joinable;
    var plan := Plan1(t, Root, pop);
    OwnPopulated(t, s0.temps, tn, pop, site, a);
    Plan1Has(t, Root, pop, site);
    Plan1Sites(t, Root, pop);
    Plan1Distinct(t, Root, pop, from);
    var j :| 0 <= j < |plan| && plan[j] == site;
    var first, last := plan[..j], plan[j + 1..];
    OtherIds(plan, j);
    AroundWrite(env, s0, tn, plan, j);
    var sA := Exec(env, s0, tn, Writes(first)).value;
    FirstWrites(env, t, s0, tn, pop, first, site, from, a);
    OwnWrite(env, t, sA, tn, pop, site, a);
    var sB := Run(env, sA, tn, site).value;
    LastWrites(env, t, sB, tn, pop, last, site, a);
    var s1 := Exec(env, sB, tn, Writes(last)).value;
    SameTwice(s0.temps, sA.temps, sB.temps);
    SameTwice(s0.temps, sB.temps, s1.temps);
    SameKey(env, sB.temps, s1.temps, site.n, a);
  }

  lemma OwnPopulated(t: Node, temps: Temps, tn: Nodes, pop: set<nat>, site: Site, a: nat)
    requires Ready(t, temps, tn, pop) && SiteIn(t, Root, site) && IsOwn(temps, site.n, a)
    ensures site.n.id in pop && Closed(t, Root, pop)
  {
    hide SiteIn, Owns;
    ReadyClosed(t, temps, tn, pop);
  }

  lemma SameKey(env: Env, a: Temps, b: Temps, n: Node, i: nat)
    requires i in a && i in b && b[i] == a[i]
    ensures RowKey(env, b, n, i) == RowKey(env, a, n, i)
  {
  }

  /** A node's own upsert. */
  lemma OwnWrite(env: Env, t: Node, s: State, tn: Nodes, pop: set<nat>, site: Site, a: nat)
    requires Ready(t, s.temps, tn, pop) && Joinable(s.temps, tn, site) && Upserts(site.n.mode)
             && IsOwn(s.temps, site.n, a)
    requires Keyed(TableOf(s.db, site.n.rel), env.ident(site.n.rel)) && Run(env, s, tn, site).Some?
    ensures var s' := Run(env, s, tn, site).value;
            && SameRows(s.temps, s'.temps) && Ready(t, s'.temps, tn, pop) && IsOwn(s'.temps, site.n, a)
            && Keyed(TableOf(s'.db, site.n.rel), env.ident(site.n.rel))
            && RowKey(env, s'.temps, site.n, a) != Null
            && RowKey(env, s'.temps, site.n, a) in TableOf(s'.db, site.n.rel)
  {
    hide Exec, TableOf, Keyed, SameRows, Run, Ready, RowKey, IsOwn, Owns, RunUpsert;
    StepUpserts(env, s, tn, site);
    var s' := Run(env, s, tn, site).value;
    UpsertedKey(env, s, tn, site, a);
    UpsertFrame(env, s, tn, site);
    SameOwn(s.temps, s'.temps, site.n, a);
    RunGrows(env, s, tn, site, site.n.rel);
    ReadyFrame(t, s.temps, s'.temps, tn, pop);
  }

  /** The run of phase 1 around one of its statements. */
  lemma AroundWrite(env: Env, s0: State, tn: Nodes, plan: seq<Site>, j: nat)
    requires j < |plan| && Exec(env, s0, tn, Writes(plan)).Some?
    ensures Exec(env, s0, tn, Writes(plan[..j])).Some?
    ensures var sA := Exec(env, s0, tn, Writes(plan[..j])).value;
            && Run(env, sA, tn, plan[j]).Some?
            && Exec(env, Run(env, sA, tn, plan[j]).value, tn, Writes(plan[j + 1..])) == Exec(env, s0, tn, Writes(plan))
  {
    hide Exec, Writes, Deletes, Run;
    SplitAt(plan, j);
    ExecSplit(env, s0, tn, Writes(plan[..j]), [Write(plan[j])] + Writes(plan[j + 1..]));
    var sA := Exec(env, s0, tn, Writes(plan[..j])).value;
    ExecSplit(env, sA, tn, [Write(plan[j])], Writes(plan[j + 1..]));
    RunOne(env, sA, tn, plan[j]);
  }

  /** What precedes a node's write leaves its temp rows ready for it. */
  lemma FirstWrites(env: Env, t: Node, s: State, tn: Nodes, pop: set<nat>, first: seq<Site>, site: Site, from: nat,
                    a: nat)
    requires Numbered(t, from) && Ready(t, s.temps, tn, pop) && forall b :: b in s.temps ==> s.temps[b].rowId == b
    requires SiteIn(t, Root, site) && IsOwn(s.temps, site.n, a)
             && Keyed(TableOf(s.db, site.n.rel), env.ident(site.n.rel))
    requires Exec(env, s, tn, Writes(first)).Some? && forall d :: d in first ==> SiteIn(t, Root, d)
    ensures var s' := Exec(env, s, tn, Writes(first)).value;
            && SameRows(s.temps, s'.temps) && Ready(t, s'.temps, tn, pop) && Joinable(s'.temps, tn, site)
            && IsOwn(s'.temps, site.n, a)
            && Keyed(TableOf(s'.db, site.n.rel), env.ident(site.n.rel))
  {
    hide SiteIn, Numbered, Exec, TableOf, Keyed, Writes, SameRows, Deletes, Ready, IsOwn, Joinable, Owns;
    var s' := Exec(env, s, tn, Writes(first)).value;
    PlanOwned(t, s.temps, tn, pop, first);
    ExecFrame(env, s, tn, Writes(first));
    WritesGrow(env, s, tn, first, site.n.rel);
    ReadyFrame(t, s.temps, s'.temps, tn, pop);
    Joins(t, s.temps, s'.temps, tn, pop, site, from);
    SameOwn(s.temps, s'.temps, site.n, a);
  }

  lemma RunOne(env: Env, s: State, tn: Nodes, site: Site)
    ensures Exec(env, s, tn, [Write(site)]) == Run(env, s, tn, site)
  {
    hide Run;
    OneStep(env, s, tn, Write(site));
  }

  lemma SameOwn(a: Temps, b: Temps, n: Node, i: nat)
    requires SameRows(a, b) && IsOwn(a, n, i)
    ensures IsOwn(b, n, i)
  {
  }

  lemma UpsertedKey(env: Env, s: State, tn: Nodes, site: Site, a: nat)
    requires Joinable(s.temps, tn, site) && RunUpsert(env, s, tn, site).Some? && IsOwn(s.temps, site.n, a)
    requires Keyed(TableOf(s.db, site.n.rel), env.ident(site.n.rel))
    ensures var s' := RunUpsert(env, s, tn, site).value;
            a in s'.temps && RowKey(env, s'.temps, site.n, a) != Null
            && RowKey(env, s'.temps, site.n, a) in TableOf(s'.db, site.n.rel)
  {
    hide Keyed, UpsertTable, SetColumns, InsertColumns, KeyColumns, DistinctIdents, ColumnValue, Sources;
    UpsertRow(env, s, tn, site, a);
    NotNull(env, s, tn, site, a);
  }

  /** What follows a node's write neither changes its temp rows nor removes what it stored. */
  lemma LastWrites(env: Env, t: Node, s: State, tn: Nodes, pop: set<nat>, last: seq<Site>, site: Site, a: nat)
    requires Ready(t, s.temps, tn, pop) && Keyed(TableOf(s.db, site.n.rel), env.ident(site.n.rel))
    requires forall d :: d in last ==> SiteIn(t, Root, d) && d.n.id != site.n.id
    requires Exec(env, s, tn, Writes(last)).Some? && IsOwn(s.temps, site.n, a)
    ensures var s' := Exec(env, s, tn, Writes(last)).value;
            && SameRows(s.temps, s'.temps) && IsOwn(s'.temps, site.n, a) && s'.temps[a] == s.temps[a]
            && TableOf(s.db, site.n.rel).Keys <= TableOf(s'.db, site.n.rel).Keys
  {
    hide SiteIn, Owns, Exec, TableOf, Keyed, SameRows;
    PlanOwned(t, s.temps, tn, pop, last);
    ExecFrame(env, s, tn, Writes(last));
    WritesGrow(env, s, tn, last, site.n.rel);
    assert forall st :: st in Writes(last) ==> st.site in last;
    SameOwn(s.temps, Exec(env, s, tn, Writes(last)).value.temps, site.n, a);
  }

  // ---- both phases --------------------------------------------------------------------------------------

  lemma {:induction false} QueueSplit(env: Env, t: Node, s0: State, tn: Nodes, pop: set<nat>, rel: Rel, k: Value)
    requires Ready(t, s0.temps, tn, pop) && Exec(env, s0, tn, Writes(Plan1(t, Root, pop))).Some?
    ensures var s1 := Exec(env, s0, tn, Writes(Plan1(t, Root, pop))).value;
            var r := Exec(env, s0, tn, Queue(t, pop));
            && r.Some? && r.value.temps == s1.temps
            && LeftIff(TableOf(s1.db, rel), TableOf(r.value.db, rel), k,
                       row => AllSpare(env, s1.temps, Plan2(t, Root, pop), rel, k, row))
  {
    hide SiteIn, Owns, Exec, TableOf, Plan1, Plan2, AllSpare, LeftIff, SameRows, Writes, Deletes;
    var s1 := Exec(env, s0, tn, Writes(Plan1(t, Root, pop))).value;
    Plan1Sites(t, Root, pop);
    Plan2Sites(t, Root, pop);
    PlanOwned(t, s0.temps, tn, pop, Plan1(t, Root, pop));
    ExecFrame(env, s0, tn, Writes(Plan1(t, Root, pop)));
    ReadyFrame(t, s0.temps, s1.temps, tn, pop);
    forall d | d in Plan2(t, Root, pop)
      ensures Owns(tn, s1.temps, d.n) && (!d.link.Root? ==> Owns(tn, s1.temps, d.link.parent))
    {
      ScopeOwned(t, s1.temps, tn, pop, d);
    }
    DeletesIff(env, s1, tn, Plan2(t, Root, pop), rel, k);
    ExecSplit(env, s0, tn, Writes(Plan1(t, Root, pop)), Deletes(Plan2(t, Root, pop)));
  }

  /**
   On any tree, shared relations included: a row of an upserted node is in its table after both phases if and only if
   every delete on that relation spares it, and then it is as phase 1 left it.
   */
  lemma RowSurvivesIff(env: Env, t: Node, s0: State, tn: Nodes, pop: set<nat>, site: Site, from: nat, a: nat)
    requires Numbered(t, from) && Ready(t, s0.temps, tn, pop) && forall b :: b in s0.temps ==> s0.temps[b].rowId == b
    requires SiteIn(t, Root, site) && Upserts(site.n.mode) && IsOwn(s0.temps, site.n, a)
    requires Keyed(TableOf(s0.db, site.n.rel), env.ident(site.n.rel))
    requires Exec(env, s0, tn, Writes(Plan1(t, Root, pop))).Some?
    ensures Exec(env, s0, tn, Queue(t, pop)).Some?
    ensures var s1 := Exec(env, s0, tn, Writes(Plan1(t, Root, pop))).value;
            var s2 := Exec(env, s0, tn, Queue(t, pop)).value;
            var t1, t2 := TableOf(s1.db, site.n.rel), TableOf(s2.db, site.n.rel);
            && s2.temps == s1.temps && IsOwn(s2.temps, site.n, a)
            && var k := RowKey(env, s2.temps, site.n, a);
            && k != Null && k in t1
            && (k in t2 <==> AllSpare(env, s2.temps, Plan2(t, Root, pop), site.n.rel, k, t1[k]))
            && (k in t2 ==> t2[k] == t1[k])
  {
    hide Ready, SiteIn, Exec, TableOf, Plan1, Plan2, AllSpare, SameRows, Writes, Deletes, Numbered, Keyed, IsOwn,
         RowKey;
    WrittenStays(env, t, s0, tn, pop, site, from, a);
    var s1 := Exec(env, s0, tn, Writes(Plan1(t, Root, pop))).value;
    OwnRowIn(s1.temps, site.n, a);
    QueueSplit(env, t, s0, tn, pop, site.n.rel, RowKey(env, s1.temps, site.n, a));
  }

  lemma OwnRowIn(temps: Temps, n: Node, a: nat)
    requires IsOwn(temps, n, a)
    ensures a in temps
  {
  }
}
