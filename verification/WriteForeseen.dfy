/**
 Keys that are generated or taken from a parent or a child: what the temp rows will hold after phase 1 can be worked out
 from the payload, and the run goes as if they had held it from the start. So what WriteSupplied says of supplied keys
 holds of these as well.
 */
module WriteForeseen {
  import opened Wrappers
  import opened WriteTree
  import opened WriteStatements
  import opened WritePhases
  import opened WriteMerge
  import opened WriteOutcome
  import opened WriteShared
  import opened WriteSupplied

  // ---- the keys to come -----------------------------------------------------------------------------------

  /** The modes whose statement gives every row its keys. */
  predicate Fills(m: Mode) {
    m == INSERT || Upserts(m)
  }

  /** `held` fills in a row's keys as its statement will resolve them, over the keys of its parent and children. */
  ghost predicate ForeseenRow(env: Env, temps: Temps, held: Temps, tn: Nodes, site: Site, a: nat)
    requires a in temps && a in held
  {
    && (site.link.In? ==> HasParent(held, site.link.parent, temps[a]))
    && held[a].vals == temps[a].vals + Restrict(held[a].vals, KeyColumns(env, site))
    && (forall c :: c in KeyColumns(env, site) ==>
                      Get(held[a].vals, c) == ColumnValue(env, held, tn, site, temps[a], c))
    && (forall c :: c in KeyColumns(env, site) ==>
          if c == env.ident(site.n.rel) then Get(held[a].vals, c) != Null
             else Upserts(site.n.mode) && c in SetColumns(env, site))
    && (!Fills(site.n.mode) ==> held[a] == temps[a])
  }

  /** An outgoing child has one row for each row of its parent. */
  ghost predicate OneChildEach(temps: Temps, n: Node) {
    forall a, b :: IsOwn(temps, n, a) && IsOwn(temps, n, b) && temps[a].parent == temps[b].parent ==> a == b
  }

  ghost predicate Foreseen(env: Env, t: Node, temps: Temps, held: Temps, tn: Nodes) {
    && SameRows(temps, held)
    && (forall s, a :: SiteIn(t, Root, s) && IsOwn(temps, s.n, a) ==> ForeseenRow(env, temps, held, tn, s, a))
    && (forall a :: a in temps && held[a] != temps[a] ==> exists s :: SiteIn(t, Root, s) && IsOwn(temps, s.n, a))
    && (forall s :: SiteIn(t, Root, s) && s.link.Out? ==> OneChildEach(temps, s.n))
  }

  /** A row that holds its keys resolves to what it did before. */
  lemma HeldValue(env: Env, temps: Temps, held: Temps, tn: Nodes, site: Site, a: nat, c: Col)
    requires a in temps && a in held && held[a] == temps[a].(vals := held[a].vals)
             && ForeseenRow(env, temps, held, tn, site, a)
    ensures ColumnValue(env, held, tn, site, held[a], c) == ColumnValue(env, held, tn, site, temps[a], c)
  {
    hide KeyColumns, SetColumns, ChildKey;
    if !(site.link.In? && c == site.n.local) && KeyChild(site.n.outgoing, c).None? {
      assert c !in KeyColumns(env, site) ==> Get(held[a].vals, c) == Get(temps[a].vals, c);
    }
  }

  /** The keys to come are settled ones. */
  lemma ForeseenSettled(env: Env, t: Node, temps: Temps, held: Temps, tn: Nodes)
    requires Foreseen(env, t, temps, held, tn)
    ensures Settled(env, t, tn, held)
  {
    hide SiteIn, KeyColumns, SetColumns, ColumnValue;
    forall s, a, c | SiteIn(t, Root, s) && IsOwn(held, s.n, a) && c in KeyColumns(env, s)
      ensures Fixed(env, held, tn, s, a, c)
    {
      assert held[a] == temps[a].(vals := held[a].vals) && IsOwn(temps, s.n, a);
      HeldValue(env, temps, held, tn, s, a, c);
      assert c in Restrict(held[a].vals, KeyColumns(env, s));
    }
  }

  // ---- one statement over rows some of which hold their keys ------------------------------------------------------

  /** The rows of the nodes in `done` hold their keys, the others are as they were loaded. */
  ghost predicate Mixed(temps: Temps, held: Temps, m: Temps, done: set<nat>) {
    && SameRows(temps, held) && m.Keys == temps.Keys
    && forall a :: a in m ==> m[a] == if temps[a].node in done then held[a] else temps[a]
  }

  lemma {:induction false} KeyChildIn(children: seq<Node>, c: Col)
    requires KeyChild(children, c).Some?
    ensures KeyChild(children, c).value in children
  {
    if children[0].distant != c {
      KeyChildIn(children[1..], c);
    }
  }

  /** What a statement reads of other nodes is there: its parent's rows, and one row of each outgoing child. */
  ghost predicate Reads(temps: Temps, tn: Nodes, site: Site, done: set<nat>) {
    && site.n.id !in done && Owns(tn, temps, site.n)
    && (site.link.In? ==> site.link.parent.id in done && forall a ::
                            IsOwn(temps, site.n, a) ==> PointsAt(temps, a, site.link.parent))
    && (forall k, b :: k in site.n.outgoing && b in temps && Selected(tn, k, temps[b]) ==> temps[b].node in done)
    && (forall k, i, b, b' :: k in site.n.outgoing && JoinsChild(temps, tn, k, i, b)
                              && JoinsChild(temps, tn, k, i, b')
                              ==> b == b')
  }

  lemma MixedChild(temps: Temps, held: Temps, m: Temps, tn: Nodes, site: Site, done: set<nat>, k: Node, i: nat)
    requires Mixed(temps, held, m, done) && Reads(temps, tn, site, done) && k in site.n.outgoing
    ensures ChildKey(m, tn, k, i) == ChildKey(held, tn, k, i)
  {
    forall b ensures JoinsChild(m, tn, k, i, b) <==> JoinsChild(temps, tn, k, i, b)
             ensures JoinsChild(held, tn, k, i, b) <==> JoinsChild(temps, tn, k, i, b) {
      if b in temps {
        assert held[b] == temps[b].(vals := held[b].vals);
      }
    }
    if exists b :: JoinsChild(temps, tn, k, i, b) {
      var b :| JoinsChild(temps, tn, k, i, b);
      assert m[b] == held[b];
    }
  }

  /** A row not yet written resolves as if all keys were there already. */
  lemma MixedValue(env: Env, temps: Temps, held: Temps, m: Temps, tn: Nodes, site: Site, done: set<nat>, a: nat, c: Col)
    requires Mixed(temps, held, m, done) && Reads(temps, tn, site, done) && IsOwn(temps, site.n, a)
    requires ForeseenRow(env, temps, held, tn, site, a)
    ensures site.link.In? ==> HasParent(m, site.link.parent, m[a])
    ensures ColumnValue(env, m, tn, site, m[a], c) == ColumnValue(env, held, tn, site, held[a], c)
  {
    hide KeyColumns, SetColumns, ChildKey, Owns;
    assert m[a] == temps[a] && held[a] == temps[a].(vals := held[a].vals);
    HeldValue(env, temps, held, tn, site, a, c);
    if site.link.In? {
      assert PointsAt(temps, a, site.link.parent);
      var p := temps[a].parent.value;
      assert m[p] == held[p];
    }
    if KeyChild(site.n.outgoing, c).Some? {
      KeyChildIn(site.n.outgoing, c);
      MixedChild(temps, held, m, tn, site, done, KeyChild(site.n.outgoing, c).value, temps[a].rowId);
    }
  }

  /** The rows of the node, all of them foreseen. */
  ghost predicate OwnForeseen(env: Env, temps: Temps, held: Temps, tn: Nodes, site: Site) {
    SameRows(temps, held) && forall a :: IsOwn(temps, site.n, a) ==> ForeseenRow(env, temps, held, tn, site, a)
  }

  lemma MixedResolved(env: Env, temps: Temps, held: Temps, m: Temps, tn: Nodes, site: Site, done: set<nat>,
                      cols: set<Col>)
    requires Mixed(temps, held, m, done) && Reads(temps, tn, site, done) && OwnForeseen(env, temps, held, tn, site)
    ensures Resolved(env, m, tn, site, cols) == Resolved(env, held, tn, site, cols)
    ensures forall a :: a in Sources(m, tn, site) <==> IsOwn(temps, site.n, a)
  {
    hide ColumnValue, ForeseenRow, Reads, Sources, Mixed;
    MixedSources(env, temps, held, m, tn, site, done);
    var x, y := Resolved(env, m, tn, site, cols), Resolved(env, held, tn, site, cols);
    forall a | a in x ensures x[a] == y[a] {
      forall c | c in cols ensures x[a][c] == y[a][c] {
        MixedValue(env, temps, held, m, tn, site, done, a, c);
      }
    }
  }

  lemma MixedSources(env: Env, temps: Temps, held: Temps, m: Temps, tn: Nodes, site: Site, done: set<nat>)
    requires Mixed(temps, held, m, done) && Reads(temps, tn, site, done) && OwnForeseen(env, temps, held, tn, site)
    ensures forall a :: a in Sources(m, tn, site) <==> IsOwn(temps, site.n, a)
    ensures Sources(m, tn, site) == Sources(held, tn, site)
  {
    hide ColumnValue, KeyColumns, SetColumns;
    forall a | a in temps
      ensures a in Sources(m, tn, site) <==> IsOwn(temps, site.n, a)
      ensures a in Sources(held, tn, site) <==> IsOwn(temps, site.n, a)
    {
      assert held[a] == temps[a].(vals := held[a].vals);
      if IsOwn(temps, site.n, a) && site.link.In? {
        assert ForeseenRow(env, temps, held, tn, site, a) && PointsAt(temps, a, site.link.parent);
        var p := temps[a].parent.value;
        assert m[p] == held[p];
      }
    }
  }

  /** A node's statement may run: the rows it reads hold their keys, its own are foreseen. */
  ghost predicate Due(env: Env, temps: Temps, held: Temps, db: map<Rel, Table>, m: Temps, tn: Nodes, site: Site,
                      done: set<nat>) {
    && Mixed(temps, held, m, done) && Reads(temps, tn, site, done) && OwnForeseen(env, temps, held, tn, site)
    && SettledAt(env, tn, site, held) && Keyed(TableOf(db, site.n.rel), env.ident(site.n.rel))
  }

  /**
   Two runs of a statement, one over rows that hold their keys: the same tables, and then its own rows hold theirs.
   */
  ghost predicate Alongside(x: Option<State>, y: Option<State>, temps: Temps, held: Temps, n: Node) {
    x.Some? && y.Some? && x.value.db == y.value.db && x.value.temps.Keys == temps.Keys && held.Keys == temps.Keys
    && forall a :: IsOwn(temps, n, a) ==> x.value.temps[a] == held[a]
  }

  lemma DueOwn(env: Env, temps: Temps, held: Temps, db: map<Rel, Table>, m: Temps, tn: Nodes, site: Site,
               done: set<nat>)
    requires Due(env, temps, held, db, m, tn, site, done)
    ensures Owns(tn, held, site.n) && Owns(tn, m, site.n) && m.Keys == temps.Keys == held.Keys
    ensures forall a :: IsOwn(temps, site.n, a) ==> m[a] == temps[a] && held[a] == temps[a].(vals := held[a].vals)
  {
    hide ForeseenRow, SettledAt, Keyed;
    SameRowsOwn(tn, temps, held, site.n);
    forall a | a in temps ensures m[a] == temps[a].(vals := m[a].vals) {
      assert held[a] == temps[a].(vals := held[a].vals);
    }
    SameRowsOwn(tn, temps, m, site.n);
  }

  lemma FilledBack(temps: Temps, held: Temps, m: Temps, from: map<nat, Row>, keys: set<Col>, a: nat)
    requires a in m && a in held && a in temps && a in from && m[a] == temps[a]
             && held[a] == temps[a].(vals := held[a].vals)
    requires held[a].vals == temps[a].vals + Restrict(held[a].vals, keys) && WriteBack(held, from, keys)[a] == held[a]
    ensures WriteBack(m, from, keys)[a] == held[a]
  {
    assert held[a].vals + Restrict(from[a], keys) == held[a].vals;
    forall c | c in keys ensures Get(from[a], c) == Get(held[a].vals, c) {
      assert (held[a].vals + Restrict(from[a], keys))[c] == Get(from[a], c);
    }
    assert Restrict(from[a], keys) == Restrict(held[a].vals, keys);
  }

  lemma UpsertAlongside(env: Env, temps: Temps, held: Temps, db: map<Rel, Table>, m: Temps, tn: Nodes, site: Site,
                        done: set<nat>)
    requires Due(env, temps, held, db, m, tn, site, done) && Upserts(site.n.mode)
             && RunUpsert(env, State(db, m), tn, site).Some?
    ensures Alongside(RunUpsert(env, State(db, m), tn, site), RunUpsert(env, State(db, held), tn, site), temps, held,
                      site.n)
  {
    hide Resolved, UpsertTable, DistinctIdents, SettledAt, Keyed, Owns, Reads, InsertColumns, SetColumns, KeyColumns,
         WriteBack, Mixed, Sources, Idents;
    var ident, cols, keys := env.ident(site.n.rel), InsertColumns(env, site), KeyColumns(env, site);
    DueOwn(env, temps, held, db, m, tn, site, done);
    MixedResolved(env, temps, held, m, tn, site, done, cols);
    UpsertStays(env, State(db, held), tn, site);
    var res := Resolved(env, m, tn, site, cols);
    var t := UpsertTable(env, TableOf(db, site.n.rel), site.n.rel, res, SetColumns(env, site));
    forall a | IsOwn(temps, site.n, a) ensures WriteBack(m, Found(t, res, ident), keys)[a] == held[a] {
      FoundAll(env, TableOf(db, site.n.rel), site.n.rel, res, SetColumns(env, site), a);
      RowHeld(env, temps, held, tn, site, a);
      FilledBack(temps, held, m, Found(t, res, ident), keys, a);
    }
  }

  lemma FoundAll(env: Env, t: Table, rel: Rel, res: map<nat, Row>, columns: set<Col>, a: nat)
    requires a in res
    ensures a in Found(UpsertTable(env, t, rel, res, columns), res, env.ident(rel))
  {
    hide NewRow, UpsertTable;
    TableKeys(env, t, rel, res, columns);
    assert Get(res[a], env.ident(rel)) in Idents(res, env.ident(rel));
  }

  lemma RowHeld(env: Env, temps: Temps, held: Temps, tn: Nodes, site: Site, a: nat)
    requires OwnForeseen(env, temps, held, tn, site) && IsOwn(temps, site.n, a)
    ensures held[a].vals == temps[a].vals + Restrict(held[a].vals, KeyColumns(env, site))
    ensures !Fills(site.n.mode) ==> held[a] == temps[a]
  {
    hide KeyColumns, SetColumns, ColumnValue, Restrict;
    assert ForeseenRow(env, temps, held, tn, site, a);
  }

  lemma InsertAlongside(env: Env, temps: Temps, held: Temps, db: map<Rel, Table>, m: Temps, tn: Nodes, site: Site,
                        done: set<nat>)
    requires Due(env, temps, held, db, m, tn, site, done) && site.n.mode == INSERT
             && RunInsert(env, State(db, m), tn, site).Some?
    ensures Alongside(RunInsert(env, State(db, m), tn, site), RunInsert(env, State(db, held), tn, site), temps, held,
                      site.n)
  {
    hide Resolved, InsertNew, DistinctIdents, SettledAt, Keyed, Owns, Reads, InsertColumns, KeyColumns, WriteBack,
         Mixed, Sources, Idents, OwnForeseen;
    var cols, keys := InsertColumns(env, site), KeyColumns(env, site);
    DueOwn(env, temps, held, db, m, tn, site, done);
    MixedResolved(env, temps, held, m, tn, site, done, cols);
    InsertStays(env, State(db, held), tn, site);
    var res := Resolved(env, m, tn, site, cols);
    forall a | IsOwn(temps, site.n, a) ensures WriteBack(m, res, keys)[a] == held[a] {
      RowHeld(env, temps, held, tn, site, a);
      FilledBack(temps, held, m, res, keys, a);
    }
  }

  // The other statements leave the keys of a row that has none alone; they are foreseen to be supplied.

  ghost predicate AgreeOn(x: Temps, y: Temps, n: Node) {
    x.Keys == y.Keys && forall a :: a in x && (x[a].node == n.id || y[a].node == n.id) ==> x[a] == y[a]
  }

  lemma BackAgrees(x: Temps, y: Temps, from: map<nat, Row>, keys: set<Col>, n: Node)
    requires AgreeOn(x, y, n)
    ensures AgreeOn(WriteBack(x, from, keys), WriteBack(y, from, keys), n)
  {
  }

  lemma OwnAgree(env: Env, temps: Temps, held: Temps, db: map<Rel, Table>, m: Temps, tn: Nodes, site: Site,
                 done: set<nat>)
    requires Due(env, temps, held, db, m, tn, site, done) && !Fills(site.n.mode)
    ensures AgreeOn(m, held, site.n) && forall a :: IsOwn(temps, site.n, a) ==> held[a] == temps[a]
  {
    hide ForeseenRow, SettledAt, Keyed, Owns, Reads;
    DueOwn(env, temps, held, db, m, tn, site, done);
    forall a | a in m && (m[a].node == site.n.id || held[a].node == site.n.id) ensures m[a] == held[a] {
      assert held[a] == temps[a].(vals := held[a].vals);
      RowHeld(env, temps, held, tn, site, a);
    }
    forall a | IsOwn(temps, site.n, a) ensures held[a] == temps[a] {
      RowHeld(env, temps, held, tn, site, a);
    }
  }

  lemma RecoveredAgrees(t: Table, x: Temps, y: Temps, tn: Nodes, n: Node, ident: Col)
    requires AgreeOn(x, y, n) && Owns(tn, x, n) && Owns(tn, y, n)
    ensures Recovered(t, x, tn, n, ident) == Recovered(t, y, tn, n, ident)
  {
    hide Selected;
    assert forall a :: a in x ==> (Selected(tn, n, x[a]) <==> Selected(tn, n, y[a]));
  }

  lemma MergeNewAlongside(env: Env, temps: Temps, held: Temps, db: map<Rel, Table>, m: Temps, tn: Nodes, site: Site,
                          done: set<nat>)
    requires Due(env, temps, held, db, m, tn, site, done) && site.n.mode == MERGE_NEW
             && RunMergeNew(env, State(db, m), tn, site).Some?
    ensures Alongside(RunMergeNew(env, State(db, m), tn, site), RunMergeNew(env, State(db, held), tn, site), temps,
                      held, site.n)
  {
    hide Resolved, InsertNew, SettledAt, Keyed, Owns, Reads, InsertColumns, KeyColumns, WriteBack, Mixed, Sources,
         Idents, OwnForeseen, Inserted, Recovered;
    var ident, cols, keys := env.ident(site.n.rel), InsertColumns(env, site), KeyColumns(env, site);
    DueOwn(env, temps, held, db, m, tn, site, done);
    OwnAgree(env, temps, held, db, m, tn, site, done);
    MixedResolved(env, temps, held, m, tn, site, done, cols);
    MergeNewStays(env, State(db, held), tn, site);
    var res := Resolved(env, m, tn, site, cols);
    var t0 := TableOf(db, site.n.rel);
    var t := InsertNew(env, t0, site.n.rel, res);
    var ins := Inserted(t0, t, res, ident);
    var x, y := WriteBack(m, ins, keys), WriteBack(held, ins, keys);
    BackAgrees(m, held, ins, keys, site.n);
    WriteBackFrame(m, ins, keys);
    WriteBackFrame(held, ins, keys);
    SameRowsOwn(tn, m, x, site.n);
    SameRowsOwn(tn, held, y, site.n);
    RecoveredAgrees(t, x, y, tn, site.n, ident);
    BackAgrees(x, y, Recovered(t, y, tn, site.n, ident), keys, site.n);
  }

  lemma UpdateAgrees(env: Env, t: Table, site: Site, res: map<nat, Row>, x: Temps, y: Temps)
    requires res.Keys <= x.Keys && x.Keys == y.Keys && forall a :: a in x ==> x[a].mask == y[a].mask
    ensures UpdateTable(env, t, site, res, x) == UpdateTable(env, t, site, res, y)
  {
    hide SetColumns, KeyLinked, Idents;
  }

  lemma UpdateAlongside(env: Env, temps: Temps, held: Temps, db: map<Rel, Table>, m: Temps, tn: Nodes, site: Site,
                        done: set<nat>)
    requires Due(env, temps, held, db, m, tn, site, done)
             && (site.n.mode == UPDATE_EXISTING || site.n.mode == MERGE_UPDATE)
    ensures Alongside(RunUpdate(env, State(db, m), tn, site), RunUpdate(env, State(db, held), tn, site), temps, held,
                      site.n)
  {
    hide Resolved, UpdateTable, UpdatedRows, SettledAt, Keyed, Owns, Reads, SetColumns, KeyColumns, WriteBack, Sources,
         Idents, OwnForeseen;
    var ident := env.ident(site.n.rel);
    var cols := SetColumns(env, site) + {ident};
    DueOwn(env, temps, held, db, m, tn, site, done);
    OwnAgree(env, temps, held, db, m, tn, site, done);
    MixedResolved(env, temps, held, m, tn, site, done, cols);
    UpdateStays(env, State(db, held), tn, site);
    var res := Resolved(env, m, tn, site, cols);
    forall a | a in m ensures m[a].mask == held[a].mask {
      assert held[a] == temps[a].(vals := held[a].vals);
    }
    UpdateAgrees(env, TableOf(db, site.n.rel), site, res, m, held);
    var t := UpdateTable(env, TableOf(db, site.n.rel), site, res, m);
    BackAgrees(m, held, UpdatedRows(t, res, ident, SetColumns(env, site)), KeyColumns(env, site), site.n);
  }

  lemma RunAlongside(env: Env, temps: Temps, held: Temps, db: map<Rel, Table>, m: Temps, tn: Nodes, site: Site,
                     done: set<nat>)
    requires Due(env, temps, held, db, m, tn, site, done) && Run(env, State(db, m), tn, site).Some?
             && !site.n.mode.READONLY?
    ensures Alongside(Run(env, State(db, m), tn, site), Run(env, State(db, held), tn, site), temps, held, site.n)
  {
    hide RunUpsert, RunInsert, RunMergeNew, RunUpdate, Due, Alongside;
    match site.n.mode
    case INSERT => InsertAlongside(env, temps, held, db, m, tn, site, done);
    case MERGE_NEW => MergeNewAlongside(env, temps, held, db, m, tn, site, done);
    case UPSERT => UpsertAlongside(env, temps, held, db, m, tn, site, done);
    case MERGE => UpsertAlongside(env, temps, held, db, m, tn, site, done);
    case UPDATE_EXISTING => UpdateAlongside(env, temps, held, db, m, tn, site, done);
    case MERGE_UPDATE => UpdateAlongside(env, temps, held, db, m, tn, site, done);
    case DELETE_ONLY => DeleteOnlyAlongside(env, temps, held, db, m, tn, site, done);
  }

  lemma DeleteOnlyAlongside(env: Env, temps: Temps, held: Temps, db: map<Rel, Table>, m: Temps, tn: Nodes, site: Site,
                            done: set<nat>)
    requires Due(env, temps, held, db, m, tn, site, done) && site.n.mode == DELETE_ONLY
    ensures Alongside(Some(State(db, m)), Some(State(db, held)), temps, held, site.n)
  {
    hide SettledAt, Keyed, Owns, Reads, OwnForeseen, Due;
    DueOwn(env, temps, held, db, m, tn, site, done);
    OwnAgree(env, temps, held, db, m, tn, site, done);
  }

  // ---- phase 1 ----------------------------------------------------------------------------------------------------

  /** The nodes whose statements come before the one at j. */
  ghost function Done(plan: seq<Site>, j: nat): (ids: set<nat>)
    requires j <= |plan|
    ensures forall i :: 0 <= i < j ==> plan[i].n.id in ids
    ensures forall id :: id in ids ==> exists i :: 0 <= i < j && plan[i].n.id == id
  {
    set i | 0 <= i < j :: plan[i].n.id
  }

  /** The payload of a tree, loaded, with the keys its rows will have. */
  ghost predicate Expected(env: Env, t: Node, s: State, held: Temps, tn: Nodes, pop: set<nat>, from: nat) {
    && Numbered(t, from) && Ready(t, s.temps, tn, pop) && (forall b :: b in s.temps ==> s.temps[b].rowId == b)
    && Foreseen(env, t, s.temps, held, tn)
    && (forall d :: SiteIn(t, Root, d) ==> Keyed(TableOf(s.db, d.n.rel), env.ident(d.n.rel)))
    && Exec(env, s, tn, Writes(Plan1(t, Root, pop))).Some?
  }

  /** The parent of an incoming node comes before it. */
  lemma ParentDone(t: Node, pop: set<nat>, from: nat, j: nat)
    requires Numbered(t, from) && j < |Plan1(t, Root, pop)| && Plan1(t, Root, pop)[j].link.In?
    ensures Plan1(t, Root, pop)[j].link.parent.id in Done(Plan1(t, Root, pop), j)
  {
    hide Plan1, Numbered;
    var plan := Plan1(t, Root, pop);
    Plan1Distinct(t, Root, pop, from);
    KeyOrder(t, Root, pop, plan[j]);
    var i, k :| 0 <= i < |plan| && 0 <= k < |plan| && plan[i].n == plan[j].link.parent && plan[k] == plan[j] && i < k;
    assert k == j;
  }

  /** An outgoing child with rows comes before its parent. */
  lemma ChildDone(t: Node, pop: set<nat>, from: nat, j: nat, k: Node)
    requires Numbered(t, from) && j < |Plan1(t, Root, pop)|
             && Site(k, Out(Plan1(t, Root, pop)[j].n)) in Plan1(t, Root, pop)
    ensures k.id in Done(Plan1(t, Root, pop), j)
  {
    hide Plan1, Numbered;
    var plan := Plan1(t, Root, pop);
    var child := Site(k, Out(plan[j].n));
    Plan1Distinct(t, Root, pop, from);
    KeyOrder(t, Root, pop, child);
    var i, c :| 0 <= i < |plan| && 0 <= c < |plan| && plan[i].n == plan[j].n && plan[c] == child && c < i;
    assert i == j;
  }

  lemma ReadsAt(env: Env, t: Node, s: State, held: Temps, tn: Nodes, pop: set<nat>, from: nat, j: nat)
    requires Expected(env, t, s, held, tn, pop, from) && j < |Plan1(t, Root, pop)|
    requires forall k :: k in Plan1(t, Root, pop)[j].n.outgoing ==> !k.mode.READONLY?
    ensures var plan := Plan1(t, Root, pop); Reads(s.temps, tn, plan[j], Done(plan, j))
  {
    hide Plan1, Numbered, SiteIn, Owns, Exec, ForeseenRow, Keyed, Done;
    var plan := Plan1(t, Root, pop);
    var site := plan[j];
    Plan1Sites(t, Root, pop);
    assert site in plan;
    NotDone(t, pop, from, j);
    if site.link.In? {
      ParentDone(t, pop, from, j);
    }
    forall k | k in site.n.outgoing
      ensures Owns(tn, s.temps, k) && OneChildEach(s.temps, k)
      ensures (exists b :: IsOwn(s.temps, k, b)) ==> k.id in Done(plan, j)
    {
      OutgoingSite(t, Root, site, k);
      if exists b :: IsOwn(s.temps, k, b) {
        var b :| IsOwn(s.temps, k, b);
        OwnPopulated(t, s.temps, tn, pop, Site(k, Out(site.n)), b);
        Plan1Has(t, Root, pop, Site(k, Out(site.n)));
        ChildDone(t, pop, from, j, k);
      }
    }
    ReadsChildren(s.temps, tn, site, Done(plan, j));
  }

  lemma NotDone(t: Node, pop: set<nat>, from: nat, j: nat)
    requires Numbered(t, from) && j < |Plan1(t, Root, pop)|
    ensures Plan1(t, Root, pop)[j].n.id !in Done(Plan1(t, Root, pop), j)
  {
    hide Plan1, Numbered;
    Plan1Distinct(t, Root, pop, from);
  }

  lemma ReadsChildren(temps: Temps, tn: Nodes, site: Site, done: set<nat>)
    requires forall k :: k in site.n.outgoing ==> Owns(tn, temps, k) && OneChildEach(temps, k)
    requires forall k, b :: k in site.n.outgoing && IsOwn(temps, k, b) ==> k.id in done
    ensures forall k, b :: k in site.n.outgoing && b in temps && Selected(tn, k, temps[b]) ==> temps[b].node in done
    ensures forall k, i, b, b' :: k in site.n.outgoing && JoinsChild(temps, tn, k, i, b)
                                  && JoinsChild(temps, tn, k, i, b')
                                  ==> b == b'
  {
    hide Selected;
    forall k, b | k in site.n.outgoing && b in temps && Selected(tn, k, temps[b])
      ensures IsOwn(temps, k, b) && temps[b].node in done
    {
      assert IsOwn(temps, k, b);
    }
  }

  lemma MixedStep(temps: Temps, held: Temps, m: Temps, m': Temps, done: set<nat>, n: Node)
    requires Mixed(temps, held, m, done) && m'.Keys == temps.Keys
             && (forall a :: IsOwn(temps, n, a) ==> m'[a] == held[a])
    requires forall a :: a in m && m[a].node != n.id ==> m'[a] == m[a]
    ensures Mixed(temps, held, m', done + {n.id})
  {
    forall a | a in m' ensures m'[a] == if temps[a].node in done + {n.id} then held[a] else temps[a] {
      assert held[a] == temps[a].(vals := held[a].vals);
      if temps[a].node == n.id {
        assert IsOwn(temps, n, a);
      }
    }
  }

  lemma DoneNext(plan: seq<Site>, j: nat)
    requires j < |plan|
    ensures Done(plan, j + 1) == Done(plan, j) + {plan[j].n.id}
  {
  }

  /** The rest of phase 1, alongside the same statements over rows that hold their keys from the start. */
  lemma {:induction false} WritesAlongside(env: Env, t: Node, s: State, held: Temps, tn: Nodes, pop: set<nat>,
                                           from: nat, j: nat, db: map<Rel, Table>, m: Temps)
    requires Expected(env, t, s, held, tn, pop, from) && j <= |Plan1(t, Root, pop)|
    requires Mixed(s.temps, held, m, Done(Plan1(t, Root, pop), j)) && AllKeyed(env, db, Plan1(t, Root, pop))
    requires Exec(env, State(db, m), tn, Writes(Plan1(t, Root, pop)[j..])).Some?
    ensures var plan := Plan1(t, Root, pop);
            var x, y := Exec(env, State(db, m), tn, Writes(plan[j..])),
                Exec(env, State(db, held), tn, Writes(plan[j..]));
            && y.Some? && x.value.db == y.value.db && Mixed(s.temps, held, x.value.temps, Done(plan, |plan|))
    decreases |Plan1(t, Root, pop)| - j
  {
    hide Plan1, Numbered, SiteIn, Run, Expected, AllKeyed, Mixed, Done;
    var plan := Plan1(t, Root, pop);
    if j < |plan| {
      var site := plan[j];
      assert Writes(plan[j..])[0] == Write(site) && Writes(plan[j..])[1..] == Writes(plan[j + 1..]);
      StepAlongside(env, t, s, held, tn, pop, from, j, db, m);
      var next := Run(env, State(db, m), tn, site).value;
      WritesAlongside(env, t, s, held, tn, pop, from, j + 1, next.db, next.temps);
    } else {
      assert plan[j..] == [];
    }
  }

  lemma StepAlongside(env: Env, t: Node, s: State, held: Temps, tn: Nodes, pop: set<nat>, from: nat, j: nat,
                      db: map<Rel, Table>, m: Temps)
    requires Expected(env, t, s, held, tn, pop, from) && j < |Plan1(t, Root, pop)|
    requires Mixed(s.temps, held, m, Done(Plan1(t, Root, pop), j)) && AllKeyed(env, db, Plan1(t, Root, pop))
    requires Run(env, State(db, m), tn, Plan1(t, Root, pop)[j]).Some?
    ensures var plan := Plan1(t, Root, pop);
            var x, y := Run(env, State(db, m), tn, plan[j]), Run(env, State(db, held), tn, plan[j]);
            && y == Some(State(x.value.db, held)) && Mixed(s.temps, held, x.value.temps, Done(plan, j + 1))
            && AllKeyed(env, x.value.db, plan)
  {
    hide Plan1, Numbered, SiteIn, Run, Mixed, Done, Exec, Ready, Foreseen, Keyed, SettledAt, Reads, OwnForeseen,
         TableOf, Owns;
    var plan := Plan1(t, Root, pop);
    var site := plan[j];
    assert site in plan;
    RunNeeds(env, State(db, m), tn, site);
    ReadsAt(env, t, s, held, tn, pop, from, j);
    SiteForeseen(env, t, s, held, tn, pop, from, site);
    RunAlongside(env, s.temps, held, db, m, tn, site, Done(plan, j));
    DueOwn(env, s.temps, held, db, m, tn, site, Done(plan, j));
    RunStays(env, State(db, held), tn, site);
    RunFrame(env, State(db, m), tn, site);
    var x := Run(env, State(db, m), tn, site).value;
    MixedStep(s.temps, held, m, x.temps, Done(plan, j), site.n);
    DoneNext(plan, j);
    forall d | d in plan ensures Keyed(TableOf(x.db, d.n.rel), env.ident(d.n.rel)) {
      RunGrows(env, State(db, m), tn, site, d.n.rel);
    }
  }

  lemma RunNeeds(env: Env, s: State, tn: Nodes, site: Site)
    requires Run(env, s, tn, site).Some?
    ensures forall k :: k in site.n.outgoing ==> !k.mode.READONLY?
  {
    hide RunUpsert, RunInsert, RunMergeNew, RunUpdate;
  }

  lemma SiteForeseen(env: Env, t: Node, s: State, held: Temps, tn: Nodes, pop: set<nat>, from: nat, site: Site)
    requires Expected(env, t, s, held, tn, pop, from) && site in Plan1(t, Root, pop)
    ensures OwnForeseen(env, s.temps, held, tn, site) && SettledAt(env, tn, site, held) && !site.n.mode.READONLY?
  {
    hide Plan1, SiteIn, Exec, ForeseenRow, Keyed, SettledAt, Ready;
    Plan1Sites(t, Root, pop);
    ForeseenSettled(env, t, s.temps, held, tn);
    SiteRange(t, Root, site, from);
  }

  /** All rows of the tree hold their keys in the end. */
  lemma AllHeld(env: Env, t: Node, s: State, held: Temps, tn: Nodes, pop: set<nat>, from: nat, m: Temps)
    requires Expected(env, t, s, held, tn, pop, from)
             && Mixed(s.temps, held, m, Done(Plan1(t, Root, pop), |Plan1(t, Root, pop)|))
    ensures m == held
  {
    hide Plan1, SiteIn, Exec, ForeseenRow, Keyed, Ready, Numbered, Done;
    var plan := Plan1(t, Root, pop);
    forall a | a in m ensures m[a] == held[a] {
      if held[a] != s.temps[a] {
        var d :| SiteIn(t, Root, d) && IsOwn(s.temps, d.n, a);
        OwnPopulated(t, s.temps, tn, pop, d, a);
        Plan1Has(t, Root, pop, d);
        var i :| 0 <= i < |plan| && plan[i] == d;
        assert plan[i].n.id in Done(plan, |plan|);
      }
    }
  }

  /** The whole run goes as if the rows had held their keys from the start. */
  lemma ForeseenRun(env: Env, t: Node, s0: State, held: Temps, tn: Nodes, pop: set<nat>, from: nat)
    requires Expected(env, t, s0, held, tn, pop, from)
    ensures Sound(env, t, State(s0.db, held), tn, pop, from)
    ensures Exec(env, s0, tn, Queue(t, pop)) == Exec(env, State(s0.db, held), tn, Queue(t, pop))
  {
    hide Plan1, Plan2, SiteIn, Exec, Numbered, Ready, Keyed, Done, Writes, Deletes, TableOf, Settled, Mixed, Expected;
    var plan := Plan1(t, Root, pop);
    ExpectedParts(env, t, s0, held, tn, pop, from);
    assert plan[0..] == plan;
    WritesAlongside(env, t, s0, held, tn, pop, from, 0, s0.db, s0.temps);
    var x := Exec(env, s0, tn, Writes(plan)).value;
    AllHeld(env, t, s0, held, tn, pop, from, x.temps);
    SettledPhase1(env, t, State(s0.db, held), tn, pop, from);
    ExecSplit(env, s0, tn, Writes(plan), Deletes(Plan2(t, Root, pop)));
    ExecSplit(env, State(s0.db, held), tn, Writes(plan), Deletes(Plan2(t, Root, pop)));
  }

  lemma ExpectedParts(env: Env, t: Node, s: State, held: Temps, tn: Nodes, pop: set<nat>, from: nat)
    requires Expected(env, t, s, held, tn, pop, from)
    ensures Numbered(t, from) && Ready(t, held, tn, pop) && (forall b :: b in held ==> held[b].rowId == b)
            && Settled(env, t, tn, held)
    ensures forall d :: SiteIn(t, Root, d) ==> Keyed(TableOf(s.db, d.n.rel), env.ident(d.n.rel))
    ensures Mixed(s.temps, held, s.temps, Done(Plan1(t, Root, pop), 0)) && AllKeyed(env, s.db, Plan1(t, Root, pop))
    ensures Exec(env, s, tn, Writes(Plan1(t, Root, pop))).Some?
  {
    hide Plan1, SiteIn, Exec, ForeseenRow, Keyed, Ready, Numbered, Settled, TableOf;
    ForeseenSettled(env, t, s.temps, held, tn);
    ReadyFrame(t, s.temps, held, tn, pop);
    forall b | b in held ensures held[b].rowId == b {
      assert held[b] == s.temps[b].(vals := held[b].vals);
    }
    Plan1Sites(t, Root, pop);
  }

  /**
   The merge outcome on any relation whose nodes end up with different identities, supplied, generated or taken from
   their parents or children: it holds if and only if every payload row endures, which can be told before the run.
   */
  lemma ForeseenMergedIff(env: Env, t: Node, s0: State, held: Temps, tn: Nodes, pop: set<nat>, from: nat, rel: Rel)
    requires Expected(env, t, s0, held, tn, pop, from) && Apart(env, t, held, rel)
    ensures Exec(env, s0, tn, Queue(t, pop)).Some?
    ensures SharedMerged(env, t, pop, rel, TableOf(s0.db, rel), TableOf(Exec(env, s0, tn, Queue(t, pop)).value.db, rel),
                         held)
            <==> AllEndure(env, t, State(s0.db, held), tn, pop, rel)
  {
    hide Plan1, Plan2, SiteIn, Exec, Queue, Expected, Sound, Apart, SharedMerged, AllEndure, TableOf;
    ForeseenRun(env, t, s0, held, tn, pop, from);
    SharedMergedIff(env, t, State(s0.db, held), tn, pop, from, rel);
  }

  // ---- generated identities ---------------------------------------------------------------------------------------

  /** The identity a row supplies, or the one the database generates for it. */
  function OwnIdent(env: Env, r: TempRow): Value {
    var c := env.ident(r.rel);
    if env.hasDefault(r.rel, c) && (c !in r.mask || (env.notNull(r.rel, c) && Get(r.vals, c) == Null))
       then env.gen(r.rowId, c)
    else Get(r.vals, c)
  }

  /** The temp rows with the identities of the tree's rows filled in. */
  ghost function WithIdents(env: Env, t: Node, temps: Temps): Temps {
    map a | a in temps ::
      if exists s :: SiteIn(t, Root, s) && IsOwn(temps, s.n, a)
      then temps[a].(vals := temps[a].vals[env.ident(temps[a].rel) := OwnIdent(env, temps[a])]) else temps[a]
  }

  /** The rows of a node that is joined to others by identities, and whose own is not another's key. */
  ghost predicate OwnIdents(env: Env, temps: Temps, site: Site) {
    && KeyColumns(env, site) == {env.ident(site.n.rel)} && !KeyLinked(site, env.ident(site.n.rel))
    && forall a :: IsOwn(temps, site.n, a) ==>
         && OwnIdent(env, temps[a]) != Null
         && (!Fills(site.n.mode) ==> env.ident(site.n.rel) in temps[a].vals
                                     && OwnIdent(env, temps[a]) == Get(temps[a].vals, env.ident(site.n.rel)))
  }

  /** For such trees the keys to come are the identities, supplied or generated. */
  lemma IdentsForeseen(env: Env, t: Node, temps: Temps, tn: Nodes, pop: set<nat>)
    requires Ready(t, temps, tn, pop) && forall s :: SiteIn(t, Root, s) ==>
                                                       OwnIdents(env, temps, s) && (s.link.Out? ==>
                                                                                      OneChildEach(temps, s.n))
    ensures Foreseen(env, t, temps, WithIdents(env, t, temps), tn)
  {
    hide SiteIn, KeyColumns, KeyLinked, ColumnValue, OneChildEach, SetColumns, OwnIdent, Owns;
    var held := WithIdents(env, t, temps);
    forall s, a | SiteIn(t, Root, s) && IsOwn(temps, s.n, a) ensures ForeseenRow(env, temps, held, tn, s, a) {
      OwnRel(t, temps, tn, pop, s, a);
      IdentForeseen(env, t, temps, held, tn, s, a);
    }
  }

  lemma OwnRel(t: Node, temps: Temps, tn: Nodes, pop: set<nat>, s: Site, a: nat)
    requires Ready(t, temps, tn, pop) && SiteIn(t, Root, s) && IsOwn(temps, s.n, a)
    ensures temps[a].rel == s.n.rel && (s.link.In? ==> PointsAt(temps, a, s.link.parent))
  {
    hide SiteIn;
    assert Selected(tn, s.n, temps[a]);
  }

  lemma IdentForeseen(env: Env, t: Node, temps: Temps, held: Temps, tn: Nodes, s: Site, a: nat)
    requires held == WithIdents(env, t, temps) && SiteIn(t, Root, s) && IsOwn(temps, s.n, a) && OwnIdents(env, temps, s)
    requires temps[a].rel == s.n.rel && (s.link.In? ==> PointsAt(temps, a, s.link.parent))
    ensures ForeseenRow(env, temps, held, tn, s, a)
  {
    hide SiteIn, KeyColumns, SetColumns;
    var c := env.ident(s.n.rel);
    assert held[a] == temps[a].(vals := temps[a].vals[c := OwnIdent(env, temps[a])]);
    if s.link.In? {
      var p := temps[a].parent.value;
      assert held[p].rel == temps[p].rel;
    }
    assert temps[a].vals[c := OwnIdent(env, temps[a])] == temps[a].vals + Restrict(held[a].vals, {c});
    if !Fills(s.n.mode) {
      assert temps[a].vals[c := OwnIdent(env, temps[a])] == temps[a].vals;
    }
  }
}
