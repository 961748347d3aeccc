/**
 The statements of query/write_dml.go as functions on tables. A table holds one row per identity, a temp
 row is found by its row id; a statement gives the state after it, or nothing when the database refuses it.
 */
module WriteStatements {
  import opened Wrappers
  import opened WriteTree

  type Row = map<Col, Value>
  type Table = map<Value, Row>
  type Temps = map<nat, TempRow>

  datatype State = State(db: map<Rel, Table>, temps: Temps)

  /** A node's place in the tree. */
  datatype Link = Root | In(parent: Node) | Out(parent: Node)

  datatype Site = Site(n: Node, link: Link)

  function Get(r: Row, c: Col): Value {
    if c in r then r[c] else Null
  }

  function TableOf(db: map<Rel, Table>, rel: Rel): Table {
    if rel in db then db[rel] else map[]
  }

  /** Every row is stored under its identity. */
  ghost predicate Keyed(t: Table, ident: Col) {
    forall k :: k in t ==> Get(t[k], ident) == k
  }

  // ---- which temp rows a statement reads ------------------------------------------------------------

  /** soleNode: every row of the node's temp table is the node's. */
  predicate Sole(tn: map<Rel, set<nat>>, n: Node) {
    NodesIn(tn, n.rel) == {n.id}
  }

  /** The rows of the node's temp table, narrowed to the node unless it owns the table. */
  predicate Selected(tn: map<Rel, set<nat>>, n: Node, r: TempRow) {
    r.rel == n.rel && (Sole(tn, n) || r.node == n.id)
  }

  /** The inner join with the parent's temp table, by row id alone. */
  predicate HasParent(temps: Temps, p: Node, r: TempRow) {
    r.parent.Some? && r.parent.value in temps && temps[r.parent.value].rel == p.rel
  }

  predicate JoinsChild(temps: Temps, tn: map<Rel, set<nat>>, c: Node, rowId: nat, b: nat) {
    b in temps && Selected(tn, c, temps[b]) && temps[b].parent == Some(rowId)
  }

  /** The left join with an outgoing child's temp row. */
  ghost function ChildKey(temps: Temps, tn: map<Rel, set<nat>>, c: Node, rowId: nat): Value {
    if exists b :: JoinsChild(temps, tn, c, rowId, b) then
      var b :| JoinsChild(temps, tn, c, rowId, b);
      Get(temps[b].vals, c.local)
    else Null
  }

  // ---- the columns of a statement ---------------------------------------------------------------------

  /** The outgoing child whose key fills a column. */
  function KeyChild(children: seq<Node>, c: Col): Option<Node> {
    if children == [] then None
    else if children[0].distant == c then Some(children[0])
    else KeyChild(children[1..], c)
  }

  /** isKeyLinked: the column takes a parent's or a child's key. */
  predicate KeyLinked(site: Site, c: Col) {
    (site.link.In? && c == site.n.local) || KeyChild(site.n.outgoing, c).Some?
  }

  /** columnsFor: the extracted columns a list allows, and those the structure fills. */
  function ColumnsFor(env: Env, site: Site, allow: set<Col>): set<Col> {
    var n := site.n;
    (set i | 0 <= i < |n.extractors| && (allow == {} || n.extractors[i].col in allow) :: n.extractors[i].col)
    + (if env.hasDefault(n.rel, env.ident(n.rel)) then {env.ident(n.rel)} else {})
    + (set i | 0 <= i < |n.outgoing| :: n.outgoing[i].distant)
    + (if site.link.In? then {n.local} else {})
  }

  /** keysColumns: the identity, and what children or the parent read. */
  function KeyColumns(env: Env, site: Site): set<Col> {
    var n := site.n;
    {env.ident(n.rel)} + (set i | 0 <= i < |n.incoming| :: n.incoming[i].distant)
    + (if site.link.Out? then {n.local} else {})
  }

  function InsertColumns(env: Env, site: Site): set<Col> {
    ColumnsFor(env, site, site.n.insertCols) + KeyColumns(env, site)
  }

  /** What an update sets: never the identity, which finds the row. */
  function SetColumns(env: Env, site: Site): set<Col> {
    ColumnsFor(env, site, if site.n.updateCols == {} then site.n.insertCols
               else site.n.updateCols) - {env.ident(site.n.rel)}
  }

  // ---- the resolved rows ----------------------------------------------------------------------------------

  /** writeColumnCase: the parent's key, a child's key, a default, or the payload's value. */
  ghost function ColumnValue(env: Env, temps: Temps, tn: map<Rel, set<nat>>, site: Site, r: TempRow, c: Col): Value
    requires site.link.In? ==> HasParent(temps, site.link.parent, r)
  {
    var n := site.n;
    if site.link.In? && c == n.local then Get(temps[r.parent.value].vals, n.distant)
    else
      var child := KeyChild(n.outgoing, c);
      if child.Some? then ChildKey(temps, tn, child.value, r.rowId)
      else if env.hasDefault(n.rel, c) && (c !in r.mask || (env.notNull(n.rel, c) && Get(r.vals, c) == Null))
           then env.gen(r.rowId, c)
      else Get(r.vals, c)
  }

  /** The temp rows a node's statement works on. */
  ghost function Sources(temps: Temps, tn: map<Rel, set<nat>>, site: Site): (s: set<nat>)
    ensures s <= temps.Keys
  {
    set a | a in temps && Selected(tn, site.n, temps[a])
    && (site.link.In? ==> HasParent(temps, site.link.parent, temps[a]))
  }

  ghost function Resolved(env: Env, temps: Temps, tn: map<Rel, set<nat>>, site: Site,
                          cols: set<Col>): (res: map<nat, Row>)
    ensures res.Keys == Sources(temps, tn, site)
    ensures forall a :: a in res ==> res[a].Keys == cols
  {
    map a | a in Sources(temps, tn, site) :: map c | c in cols :: ColumnValue(env, temps, tn, site, temps[a], c)
  }

  ghost function Idents(res: map<nat, Row>, ident: Col): set<Value> {
    set a | a in res :: Get(res[a], ident)
  }

  /** No two rows have the same identity, and none has no identity. */
  ghost predicate DistinctIdents(res: map<nat, Row>, ident: Col) {
    && Null !in Idents(res, ident)
    && forall a, b :: a in res && b in res && Get(res[a], ident) == Get(res[b], ident) ==> a == b
  }

  /** Some row of that identity. */
  ghost function Pick(res: map<nat, Row>, ident: Col, k: Value): (a: nat)
    requires k in Idents(res, ident)
    ensures a in res && Get(res[a], ident) == k
  {
    var a :| a in res && Get(res[a], ident) == k;
    a
  }

  // ---- writing ------------------------------------------------------------------------------------------------

  /** An inserted row: the columns of the statement, and defaults for the rest. */
  function NewRow(env: Env, rel: Rel, a: nat, r: Row): Row {
    map c | c in env.columns(rel) + r.Keys :: if c in r then r[c]
                                              else if env.hasDefault(rel, c) then env.gen(a, c) else Null
  }

  function Restrict(r: Row, cols: set<Col>): Row {
    map c | c in cols :: Get(r, c)
  }

  /** insert ... on conflict do update: existing rows take columns of the row proposed, the others are inserted. */
  ghost function UpsertTable(env: Env, t: Table, rel: Rel, res: map<nat, Row>, set_: set<Col>): Table {
    var ident := env.ident(rel);
    map k | k in t.Keys + Idents(res, ident) ::
      if k !in Idents(res, ident) then t[k]
      else if k in t then t[k] + Restrict(NewRow(env, rel, Pick(res, ident, k), res[Pick(res, ident, k)]), set_)
      else NewRow(env, rel, Pick(res, ident, k), res[Pick(res, ident, k)])
  }

  /** insert ... on conflict do nothing. */
  ghost function InsertNew(env: Env, t: Table, rel: Rel, res: map<nat, Row>): Table {
    var ident := env.ident(rel);
    map k | k in t.Keys + Idents(res, ident) ::
      if k in t then t[k] else NewRow(env, rel, Pick(res, ident, k), res[Pick(res, ident, k)])
  }

  /** update ... from resolved: the supplied columns of the rows found. */
  ghost function UpdateTable(env: Env, t: Table, site: Site, res: map<nat, Row>, temps: Temps): Table
    requires res.Keys <= temps.Keys
  {
    var ident := env.ident(site.n.rel);
    map k | k in t ::
      if k !in Idents(res, ident) then t[k]
      else
        var a := Pick(res, ident, k);
        t[k] + map c | c in SetColumns(env, site) && (KeyLinked(site, c) || c in temps[a].mask) :: Get(res[a], c)
  }

  /** Writes keys back into temp rows: `from` gives the row a temp row's keys come from. */
  ghost function WriteBack(temps: Temps, from: map<nat, Row>, keys: set<Col>): (r: Temps)
    ensures r.Keys == temps.Keys
  {
    map a | a in temps :: if a in from then temps[a].(vals := temps[a].vals + Restrict(from[a], keys)) else temps[a]
  }

  /** The rows of the table found by the identities of the resolved rows. */
  ghost function Found(t: Table, res: map<nat, Row>, ident: Col): map<nat, Row> {
    map a | a in res && Get(res[a], ident) in t :: t[Get(res[a], ident)]
  }

  ghost function RunUpsert(env: Env, s: State, tn: map<Rel, set<nat>>, site: Site): Option<State> {
    var rel := site.n.rel;
    var ident := env.ident(rel);
    var res := Resolved(env, s.temps, tn, site, InsertColumns(env, site));
    if !DistinctIdents(res, ident) then None
    else
      var t := UpsertTable(env, TableOf(s.db, rel), rel, res, SetColumns(env, site));
      Some(State(s.db[rel := t], WriteBack(s.temps, Found(t, res, ident), KeyColumns(env, site))))
  }

  ghost function RunInsert(env: Env, s: State, tn: map<Rel, set<nat>>, site: Site): Option<State> {
    var rel := site.n.rel;
    var ident := env.ident(rel);
    var res := Resolved(env, s.temps, tn, site, InsertColumns(env, site));
    var t := TableOf(s.db, rel);
    if !DistinctIdents(res, ident) || t.Keys * Idents(res, ident) != {} then None
    else Some(State(s.db[rel := InsertNew(env, t, rel, res)], WriteBack(s.temps, res, KeyColumns(env, site))))
  }

  /** MERGE_NEW: keys of inserted rows first, then those of every row the table holds. */
  ghost function RunMergeNew(env: Env, s: State, tn: map<Rel, set<nat>>, site: Site): Option<State> {
    var rel := site.n.rel;
    var ident := env.ident(rel);
    var res := Resolved(env, s.temps, tn, site, InsertColumns(env, site));
    var t0 := TableOf(s.db, rel);
    if Null in Idents(res, ident) then None
    else
      var t := InsertNew(env, t0, rel, res);
      var keys := KeyColumns(env, site);
      var temps := WriteBack(s.temps, Inserted(t0, t, res, ident), keys);
      Some(State(s.db[rel := t], WriteBack(temps, Recovered(t, temps, tn, site.n, ident), keys)))
  }

  /** The rows the statement itself inserted. */
  ghost function Inserted(t0: Table, t: Table, res: map<nat, Row>, ident: Col): map<nat, Row> {
    map a | a in res && Get(res[a], ident) !in t0 && Get(res[a], ident) in t :: t[Get(res[a], ident)]
  }

  /** The rows the table holds for the identities of a node's temp rows. */
  ghost function Recovered(t: Table, temps: Temps, tn: map<Rel, set<nat>>, n: Node, ident: Col): map<nat, Row> {
    map a | a in temps && Selected(tn, n, temps[a]) && Get(temps[a].vals, ident) in t :: t[Get(temps[a].vals, ident)]
  }

  /**
   The rows an update of some columns returns: one resolved row for each row of the table, all of them if it sets
   nothing.
   */
  ghost function UpdatedRows(t: Table, res: map<nat, Row>, ident: Col, columns: set<Col>): map<nat, Row> {
    map a | a in res && Get(res[a], ident) in t && (columns == {} || Pick(res, ident, Get(res[a], ident)) == a) ::
      t[Get(res[a], ident)]
  }

  ghost function RunUpdate(env: Env, s: State, tn: map<Rel, set<nat>>, site: Site): Option<State> {
    var rel := site.n.rel;
    var ident := env.ident(rel);
    var res := Resolved(env, s.temps, tn, site, SetColumns(env, site) + {ident});
    var t := UpdateTable(env, TableOf(s.db, rel), site, res, s.temps);
    Some(State(s.db[rel := t], WriteBack(s.temps, UpdatedRows(t, res, ident, SetColumns(env, site)),
                                         KeyColumns(env, site))))
  }

  /**
   runPhase1Node: the statement of a node's write mode. An outgoing child that is not written has no temp table to
   join.
   */
  ghost function Run(env: Env, s: State, tn: map<Rel, set<nat>>, site: Site): Option<State> {
    if exists i :: 0 <= i < |site.n.outgoing| && site.n.outgoing[i].mode.READONLY? then None
    else
      match site.n.mode
      case READONLY => Some(s)
      case DELETE_ONLY => Some(s)
      case INSERT => RunInsert(env, s, tn, site)
      case MERGE_NEW => RunMergeNew(env, s, tn, site)
      case UPDATE_EXISTING => RunUpdate(env, s, tn, site)
      case MERGE_UPDATE => RunUpdate(env, s, tn, site)
      case UPSERT => RunUpsert(env, s, tn, site)
      case MERGE => RunUpsert(env, s, tn, site)
  }

  // ---- deleting ----------------------------------------------------------------------------------------------------

  /** The identities a node's rows hold. */
  ghost function Kept(env: Env, temps: Temps, tn: map<Rel, set<nat>>, n: Node): set<Value> {
    (set a | a in temps && Selected(tn, n, temps[a]) :: Get(temps[a].vals, env.ident(n.rel))) - {Null}
  }

  /** The keys of a parent's rows that a child's rows may point at. */
  ghost function ParentKeys(temps: Temps, tn: map<Rel, set<nat>>, p: Node, distant: Col): set<Value> {
    (set a | a in temps && Selected(tn, p, temps[a]) :: Get(temps[a].vals, distant)) - {Null}
  }

  /** The rows a node's delete may remove: all at the root, else those that point at a parent's row. */
  ghost predicate InScope(temps: Temps, tn: map<Rel, set<nat>>, site: Site, r: Row) {
    site.link.Root? || Get(r, site.n.local) in ParentKeys(temps, tn, site.link.parent, site.n.distant)
  }

  /** runDelete: the rows in scope whose identity no row of the node holds. */
  ghost function RunDelete(env: Env, s: State, tn: map<Rel, set<nat>>, site: Site): State {
    var t := TableOf(s.db, site.n.rel);
    s.(db := s.db[site.n.rel := map k | k in t && !(InScope(s.temps, tn, site, t[k])
                                                    && k !in Kept(env, s.temps, tn, site.n)) :: t[k]])
  }

  // ---- what a statement leaves alone ------------------------------------------------------------------------------

  /** The same temp rows but for their values. */
  ghost predicate SameRows(a: Temps, b: Temps) {
    a.Keys == b.Keys && forall i :: i in a ==> b[i] == a[i].(vals := b[i].vals)
  }

  /** The metadata is right for a node: it selects exactly its own rows. */
  ghost predicate Owns(tn: map<Rel, set<nat>>, temps: Temps, n: Node) {
    forall a :: a in temps ==> (Selected(tn, n, temps[a]) <==> temps[a].node == n.id)
  }

  lemma SameRowsOwn(tn: map<Rel, set<nat>>, a: Temps, b: Temps, n: Node)
    requires SameRows(a, b) && Owns(tn, a, n)
    ensures Owns(tn, b, n)
  {
    forall i | i in b ensures Selected(tn, n, b[i]) <==> b[i].node == n.id {
      assert Selected(tn, n, a[i]) <==> a[i].node == n.id;
    }
  }

  lemma WriteBackFrame(temps: Temps, from: map<nat, Row>, keys: set<Col>)
    ensures SameRows(temps, WriteBack(temps, from, keys))
    ensures forall a :: a in temps && a !in from ==> WriteBack(temps, from, keys)[a] == temps[a]
  {
  }

  /** A node's statement changes its own table and the values of its own temp rows only. */
  lemma RunFrame(env: Env, s: State, tn: map<Rel, set<nat>>, site: Site)
    requires Run(env, s, tn, site).Some? && Owns(tn, s.temps, site.n)
    ensures var s' := Run(env, s, tn, site).value;
            && (forall rel :: rel != site.n.rel ==> TableOf(s'.db, rel) == TableOf(s.db, rel))
            && SameRows(s.temps, s'.temps)
            && (forall a :: a in s.temps && s.temps[a].node != site.n.id ==> s'.temps[a] == s.temps[a])
  {
    hide UpsertTable, InsertNew, UpdateTable, InsertColumns, SetColumns, KeyColumns, DistinctIdents, Idents;
    var rel := site.n.rel;
    var ident := env.ident(rel);
    var keys := KeyColumns(env, site);
    var res := Resolved(env, s.temps, tn, site, InsertColumns(env, site));
    match site.n.mode
    case INSERT => WriteBackFrame(s.temps, res, keys);
    case MERGE_NEW => MergeNewFrame(env, s, tn, site);
    case UPSERT => UpsertFrame(env, s, tn, site);
    case MERGE => UpsertFrame(env, s, tn, site);
    case UPDATE_EXISTING => UpdateFrame(env, s, tn, site);
    case MERGE_UPDATE => UpdateFrame(env, s, tn, site);
    case _ =>
  }

  lemma UpsertFrame(env: Env, s: State, tn: map<Rel, set<nat>>, site: Site)
    requires RunUpsert(env, s, tn, site).Some? && Owns(tn, s.temps, site.n)
    ensures var s' := RunUpsert(env, s, tn, site).value;
            && (forall rel :: rel != site.n.rel ==> TableOf(s'.db, rel) == TableOf(s.db, rel))
            && SameRows(s.temps, s'.temps)
            && (forall a :: a in s.temps && s.temps[a].node != site.n.id ==> s'.temps[a] == s.temps[a])
  {
    hide UpsertTable, InsertColumns, SetColumns, KeyColumns, DistinctIdents, Idents;
    var ident := env.ident(site.n.rel);
    var res := Resolved(env, s.temps, tn, site, InsertColumns(env, site));
    var t := UpsertTable(env, TableOf(s.db, site.n.rel), site.n.rel, res, SetColumns(env, site));
    WriteBackFrame(s.temps, Found(t, res, ident), KeyColumns(env, site));
  }

  lemma UpdateFrame(env: Env, s: State, tn: map<Rel, set<nat>>, site: Site)
    requires RunUpdate(env, s, tn, site).Some? && Owns(tn, s.temps, site.n)
    ensures var s' := RunUpdate(env, s, tn, site).value;
            && (forall rel :: rel != site.n.rel ==> TableOf(s'.db, rel) == TableOf(s.db, rel))
            && SameRows(s.temps, s'.temps)
            && (forall a :: a in s.temps && s.temps[a].node != site.n.id ==> s'.temps[a] == s.temps[a])
  {
    hide UpdateTable, SetColumns, KeyColumns;
  }

  lemma MergeNewFrame(env: Env, s: State, tn: map<Rel, set<nat>>, site: Site)
    requires RunMergeNew(env, s, tn, site).Some? && Owns(tn, s.temps, site.n)
    ensures var s' := RunMergeNew(env, s, tn, site).value;
            && (forall rel :: rel != site.n.rel ==> TableOf(s'.db, rel) == TableOf(s.db, rel))
            && SameRows(s.temps, s'.temps)
            && (forall a :: a in s.temps && s.temps[a].node != site.n.id ==> s'.temps[a] == s.temps[a])
  {
    hide InsertNew, InsertColumns, KeyColumns, Idents, Inserted, Recovered, WriteBack, Resolved, TableOf;
    var ident := env.ident(site.n.rel);
    var keys := KeyColumns(env, site);
    var res := Resolved(env, s.temps, tn, site, InsertColumns(env, site));
    var t0 := TableOf(s.db, site.n.rel);
    var t := InsertNew(env, t0, site.n.rel, res);
    var inserted := Inserted(t0, t, res, ident);
    var temps := WriteBack(s.temps, inserted, keys);
    InsertedOwn(s.temps, tn, site, t0, t, res, ident);
    WriteBackOwn(s.temps, inserted, keys, site.n.id);
    SameRowsOwn(tn, s.temps, temps, site.n);
    var recovered := Recovered(t, temps, tn, site.n, ident);
    RecoveredOwn(t, temps, tn, site.n, ident);
    WriteBackOwn(temps, recovered, keys, site.n.id);
    OwnTwice(s.temps, temps, WriteBack(temps, recovered, keys), site.n.id);
    TableSet(s.db, site.n.rel, t);
  }

  lemma TableSet(db: map<Rel, Table>, rel: Rel, t: Table)
    ensures forall other :: other != rel ==> TableOf(db[rel := t], other) == TableOf(db, other)
  {
  }

  lemma InsertedOwn(temps: Temps, tn: map<Rel, set<nat>>, site: Site, t0: Table, t: Table, res: map<nat, Row>,
                    ident: Col)
    requires Owns(tn, temps, site.n) && res.Keys == Sources(temps, tn, site)
    ensures forall a :: a in Inserted(t0, t, res, ident) ==> a in temps && temps[a].node == site.n.id
  {
  }

  lemma RecoveredOwn(t: Table, temps: Temps, tn: map<Rel, set<nat>>, n: Node, ident: Col)
    requires Owns(tn, temps, n)
    ensures forall a :: a in Recovered(t, temps, tn, n, ident) ==> a in temps && temps[a].node == n.id
  {
  }

  /** Keys written into a node's own rows leave the others alone. */
  lemma WriteBackOwn(temps: Temps, from: map<nat, Row>, keys: set<Col>, id: nat)
    requires forall a :: a in from ==> a in temps && temps[a].node == id
    ensures SameRows(temps, WriteBack(temps, from, keys))
    ensures forall a :: a in temps && temps[a].node != id ==> WriteBack(temps, from, keys)[a] == temps[a]
  {
  }

  lemma OwnTwice(a: Temps, b: Temps, c: Temps, id: nat)
    requires SameRows(a, b) && SameRows(b, c)
    requires forall i :: i in a && a[i].node != id ==> b[i] == a[i]
    requires forall i :: i in b && b[i].node != id ==> c[i] == b[i]
    ensures SameRows(a, c) && forall i :: i in a && a[i].node != id ==> c[i] == a[i]
  {
    forall i | i in a ensures c[i] == a[i].(vals := c[i].vals) {
      assert b[i] == a[i].(vals := b[i].vals);
    }
  }
}
