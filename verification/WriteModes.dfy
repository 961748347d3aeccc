/**
 What each write mode does to its relation, told over the tables and temp rows before and after, apart from the
 statements (docs/content/query-language/writing.md, query/write_dml.go): which rows are there, what each of their
 columns holds, and which key every payload row gets back; first for one statement, then for a whole run.
 */
module WriteModes {
  import opened Wrappers
  import opened WriteTree
  import opened WriteStatements
  import opened WritePhases
  import opened WriteMerge
  import opened WriteOutcome
  import opened WriteShared

  // ---- the columns of a write ---------------------------------------------------------------------------------------

  /** A column a write fills: selected and allowed, a key to generate, or the key of a parent or child. */
  ghost predicate Filled(env: Env, site: Site, allow: set<Col>, c: Col) {
    || (exists e :: e in site.n.extractors && e.col == c && (allow == {} || c in allow))
    || (c == env.ident(site.n.rel) && env.hasDefault(site.n.rel, c))
    || (exists k :: k in site.n.outgoing && k.distant == c)
    || (site.link.In? && c == site.n.local)
  }

  /** A column that is handed back: the identity, and what the joins of children or of the parent read. */
  ghost predicate HandedBack(env: Env, site: Site, c: Col) {
    || c == env.ident(site.n.rel)
    || (exists k :: k in site.n.incoming && k.distant == c)
    || (site.link.Out? && c == site.n.local)
  }

  /** A column a new row is given. */
  ghost predicate Given(env: Env, site: Site, c: Col) {
    Filled(env, site, site.n.insertCols, c) || HandedBack(env, site, c)
  }

  /** A column an existing row is given: never the identity. */
  ghost predicate Changed(env: Env, site: Site, c: Col) {
    && c != env.ident(site.n.rel)
    && Filled(env, site, if site.n.updateCols == {} then site.n.insertCols else site.n.updateCols, c)
  }

  /** The key of a parent or of an outgoing child, whatever the payload says. */
  ghost predicate Joined(site: Site, c: Col) {
    (site.link.In? && c == site.n.local) || exists k :: k in site.n.outgoing && k.distant == c
  }

  lemma FilledIff(env: Env, site: Site, allow: set<Col>, c: Col)
    ensures c in ColumnsFor(env, site, allow) <==> Filled(env, site, allow, c)
  {
    var n := site.n;
    if e :| e in n.extractors && e.col == c && (allow == {} || c in allow) {
      var i :| 0 <= i < |n.extractors| && n.extractors[i] == e;
      assert n.extractors[i].col == c;
    }
    if k :| k in n.outgoing && k.distant == c {
      var i :| 0 <= i < |n.outgoing| && n.outgoing[i] == k;
      assert n.outgoing[i].distant == c;
    }
  }

  lemma HandedBackIff(env: Env, site: Site, c: Col)
    ensures c in KeyColumns(env, site) <==> HandedBack(env, site, c)
  {
    var n := site.n;
    if k :| k in n.incoming && k.distant == c {
      var i :| 0 <= i < |n.incoming| && n.incoming[i] == k;
      assert n.incoming[i].distant == c;
    }
  }

  lemma GivenIff(env: Env, site: Site, c: Col)
    ensures c in InsertColumns(env, site) <==> Given(env, site, c)
    ensures c in SetColumns(env, site) <==> Changed(env, site, c)
  {
    hide ColumnsFor, Filled, KeyColumns, HandedBack;
    HandedBackIff(env, site, c);
    FilledIff(env, site, site.n.insertCols, c);
    FilledIff(env, site, if site.n.updateCols == {} then site.n.insertCols else site.n.updateCols, c);
  }

  lemma {:induction false} KeyChildIs(children: seq<Node>, c: Col) returns (i: nat)
    ensures KeyChild(children, c).None? <==> forall k :: k in children ==> k.distant != c
    ensures KeyChild(children, c).Some? ==> FirstWith(children, c, i) && KeyChild(children, c).value == children[i]
  {
    i := 0;
    if children != [] {
      assert children == [children[0]] + children[1..];
      if children[0].distant != c {
        i := KeyChildIs(children[1..], c);
        FirstAfter(children, c, i);
        i := i + 1;
      }
    }
  }

  lemma FirstAfter(children: seq<Node>, c: Col, i: nat)
    requires children != [] && children[0].distant != c
    ensures FirstWith(children[1..], c, i) ==> FirstWith(children, c, i + 1) && children[i + 1] == children[1..][i]
  {
    forall j | 0 <= j < i + 1 && FirstWith(children[1..], c, i) ensures children[j].distant != c {
      if j > 0 {
        assert children[j] == children[1..][j - 1];
      }
    }
  }

  /** The first child whose key fills a column. */
  ghost predicate FirstWith(children: seq<Node>, c: Col, i: nat) {
    i < |children| && children[i].distant == c && forall j :: 0 <= j < i ==> children[j].distant != c
  }

  lemma JoinedIff(site: Site, c: Col)
    ensures KeyLinked(site, c) <==> Joined(site, c)
  {
    hide KeyChild;
    var _ := KeyChildIs(site.n.outgoing, c);
  }

  // ---- the value of a column --------------------------------------------------------------------------------------

  ghost predicate ChildRow(kin: Temps, child: Node, a: nat, b: nat) {
    b in kin && kin[b].node == child.id && kin[b].parent == Some(a)
  }

  /** The key of an outgoing child's row; null without one. */
  ghost predicate ChildsKey(kin: Temps, child: Node, a: nat, v: Value) {
    if exists b :: ChildRow(kin, child, a, b)
    then exists b :: ChildRow(kin, child, a, b) && v == Get(kin[b].vals, child.local)
    else v == Null
  }

  ghost predicate ParentsKey(kin: Temps, site: Site, r: TempRow, v: Value)
    requires site.link.In?
  {
    r.parent.Some? && r.parent.value in kin && v == Get(kin[r.parent.value].vals, site.n.distant)
  }

  /**
   What a column of payload row a comes to: the key of its parent or child as `kin` holds it, the default where the
   payload has nothing, or a null that is not allowed, and else what the payload has.
   */
  ghost predicate Due(env: Env, site: Site, before: Temps, kin: Temps, a: nat, c: Col, v: Value)
    requires a in before
  {
    if site.link.In? && c == site.n.local then ParentsKey(kin, site, before[a], v)
    else if exists k :: k in site.n.outgoing && k.distant == c then
      exists i: nat :: FirstWith(site.n.outgoing, c, i) && ChildsKey(kin, site.n.outgoing[i], a, v)
    else if env.hasDefault(site.n.rel, c)
            && (c !in before[a].mask || (env.notNull(site.n.rel, c) && Get(before[a].vals, c) == Null))
    then v == env.gen(a, c)
    else v == Get(before[a].vals, c)
  }

  /** What the whole new row has in a column: what it is given, else the default, else null. */
  ghost predicate Fresh(env: Env, site: Site, before: Temps, kin: Temps, a: nat, c: Col, v: Value)
    requires a in before
  {
    if Given(env, site, c) then Due(env, site, before, kin, a, c, v)
    else v == if env.hasDefault(site.n.rel, c) then env.gen(a, c) else Null
  }

  /** A row inserted for payload row a. */
  ghost predicate IsNew(env: Env, site: Site, before: Temps, kin: Temps, a: nat, r: Row)
    requires a in before
  {
    forall c :: (c in r <==> c in env.columns(site.n.rel) || Given(env, site, c))
                && (c in r ==> Fresh(env, site, before, kin, a, c, r[c]))
  }

  /** A row that was there, overwritten by the row prepared for payload row a, in the columns an update may change. */
  ghost predicate IsOverwritten(env: Env, site: Site, before: Temps, kin: Temps, a: nat, old_: Row, r: Row)
    requires a in before
  {
    forall c :: if Changed(env, site, c)
                then c in r && (if Given(env, site, c) || c in env.columns(site.n.rel)
                                then Fresh(env, site, before, kin, a, c, r[c]) else r[c] == Null)
                else (c in r <==> c in old_) && (c in r ==> r[c] == old_[c])
  }

  /** A row that was there, with the columns payload row a supplies. */
  ghost predicate IsUpdated(env: Env, site: Site, before: Temps, kin: Temps, a: nat, old_: Row, r: Row)
    requires a in before
  {
    forall c :: if Changed(env, site, c) && (Joined(site, c) || c in before[a].mask)
                then c in r && Due(env, site, before, kin, a, c, r[c])
                else (c in r <==> c in old_) && (c in r ==> r[c] == old_[c])
  }

  /** The temp rows of the children of a node are told apart by node id. */
  ghost predicate ChildrenOwned(temps: Temps, tn: Nodes, site: Site) {
    forall k :: k in site.n.outgoing ==> Owns(tn, temps, k)
  }

  lemma ChildKeyIs(temps: Temps, tn: Nodes, k: Node, a: nat)
    requires Owns(tn, temps, k)
    ensures ChildsKey(temps, k, a, ChildKey(temps, tn, k, a))
  {
    forall b ensures JoinsChild(temps, tn, k, a, b) <==> ChildRow(temps, k, a, b) {
    }
    hide Owns, Selected, ChildRow, JoinsChild;
    if exists b :: JoinsChild(temps, tn, k, a, b) {
      var b :| JoinsChild(temps, tn, k, a, b) && ChildKey(temps, tn, k, a) == Get(temps[b].vals, k.local);
      assert ChildRow(temps, k, a, b);
    }
  }

  /** The statement resolves every column to what it comes to. */
  lemma ResolvedDue(env: Env, temps: Temps, tn: Nodes, site: Site, cols: set<Col>, a: nat, c: Col)
    requires Joinable(temps, tn, site) && ChildrenOwned(temps, tn, site) && IsOwn(temps, site.n, a) && c in cols
    ensures a in Resolved(env, temps, tn, site, cols)
    ensures Due(env, site, temps, temps, a, c, Resolved(env, temps, tn, site, cols)[a][c])
  {
    hide Owns, ChildKey, KeyChild, Selected, ChildsKey;
    ResolvedKeys(env, temps, tn, site, a);
    var i := KeyChildIs(site.n.outgoing, c);
    var child := KeyChild(site.n.outgoing, c);
    if !(site.link.In? && c == site.n.local) && child.Some? {
      ChildKeyIs(temps, tn, child.value, a);
    }
  }

  // ---- a table after a write --------------------------------------------------------------------------------------

  /** The identity every payload row comes to. */
  ghost predicate Identified(env: Env, site: Site, before: Temps, kin: Temps, ids: map<nat, Value>) {
    && (forall a :: a in ids <==> IsOwn(before, site.n, a))
    && (forall a :: a in ids ==> a in before && Due(env, site, before, kin, a, env.ident(site.n.rel), ids[a]))
  }

  ghost predicate Among(ids: map<nat, Value>, k: Value) {
    exists a :: a in ids && ids[a] == k
  }

  ghost predicate Named(ids: map<nat, Value>) {
    forall a :: a in ids ==> ids[a] != Null
  }

  ghost predicate Apart(ids: map<nat, Value>) {
    forall a, b :: a in ids && b in ids && ids[a] == ids[b] ==> a == b
  }

  ghost predicate SameAt(t0: Table, t1: Table, k: Value) {
    (k in t1 <==> k in t0) && (k in t1 ==> t1[k] == t0[k])
  }

  /** insert: every payload row is a row that was not there. */
  ghost predicate Inserts(env: Env, site: Site, before: Temps, kin: Temps, ids: map<nat, Value>, t0: Table, t1: Table)
    requires ids.Keys <= before.Keys
  {
    && Named(ids) && Apart(ids)
    && (forall k :: !Among(ids, k) ==> SameAt(t0, t1, k))
    && forall a :: a in ids ==> ids[a] !in t0 && ids[a] in t1 && IsNew(env, site, before, kin, a, t1[ids[a]])
  }

  /** merge-new: every row that was there is as it was, and each missing identity has a row of the payload. */
  ghost predicate InsertsMissing(env: Env, site: Site, before: Temps, kin: Temps, ids: map<nat, Value>, t0: Table,
                                 t1: Table)
    requires ids.Keys <= before.Keys
  {
    && Named(ids)
    && (forall k :: k in t0 || !Among(ids, k) ==> SameAt(t0, t1, k))
    && forall k :: k !in t0 && Among(ids, k) ==>
         k in t1 && exists a :: a in ids && ids[a] == k && IsNew(env, site, before, kin, a, t1[k])
  }

  /** upsert and merge: every payload row is there, new or written over the row of its identity. */
  ghost predicate UpsertsAll(env: Env, site: Site, before: Temps, kin: Temps, ids: map<nat, Value>, t0: Table,
                             t1: Table)
    requires ids.Keys <= before.Keys
  {
    && Named(ids) && Apart(ids)
    && (forall k :: !Among(ids, k) ==> SameAt(t0, t1, k))
    && forall a :: a in ids ==>
         ids[a] in t1 && if ids[a] in t0 then IsOverwritten(env, site, before, kin, a, t0[ids[a]], t1[ids[a]])
                         else IsNew(env, site, before, kin, a, t1[ids[a]])
  }

  /** update-existing and merge-update: no row comes or goes, and a row of the payload supplies what changes. */
  ghost predicate UpdatesFound(env: Env, site: Site, before: Temps, kin: Temps, ids: map<nat, Value>, t0: Table,
                               t1: Table)
    requires ids.Keys <= before.Keys
  {
    && (forall k :: k !in t0 || !Among(ids, k) ==> SameAt(t0, t1, k))
    && forall k :: k in t0 && Among(ids, k) ==>
         k in t1 && exists a :: a in ids && ids[a] == k && IsUpdated(env, site, before, kin, a, t0[k], t1[k])
  }

  ghost predicate TableAfter(env: Env, site: Site, before: Temps, kin: Temps, ids: map<nat, Value>, t0: Table,
                             t1: Table)
    requires ids.Keys <= before.Keys
  {
    match site.n.mode
    case INSERT => Inserts(env, site, before, kin, ids, t0, t1)
    case MERGE_NEW => InsertsMissing(env, site, before, kin, ids, t0, t1)
    case UPSERT => UpsertsAll(env, site, before, kin, ids, t0, t1)
    case MERGE => UpsertsAll(env, site, before, kin, ids, t0, t1)
    case UPDATE_EXISTING => UpdatesFound(env, site, before, kin, ids, t0, t1)
    case MERGE_UPDATE => UpdatesFound(env, site, before, kin, ids, t0, t1)
    case DELETE_ONLY => t1 == t0
    case READONLY => t1 == t0
  }

  // ---- the keys handed back ---------------------------------------------------------------------------------------

  /** A temp row holds the keys of a row of the table, and else what it held. */
  ghost predicate HoldsKeys(env: Env, site: Site, was: Row, vals: Row, t1: Table, k: Value) {
    k in t1 && forall c :: if HandedBack(env, site, c) then c in vals && vals[c] == Get(t1[k], c)
                           else (c in vals <==> c in was) && (c in vals ==> vals[c] == was[c])
  }

  /** merge-new reads the keys of a row that was there by the identity the payload supplied. */
  ghost predicate Recovers(env: Env, site: Site, was: Row, vals: Row, k: Value, t0: Table, t1: Table) {
    if k !in t0 then HoldsKeys(env, site, was, vals, t1, k)
    else if Get(was, env.ident(site.n.rel)) in t1 then
      HoldsKeys(env, site, was, vals, t1, Get(was, env.ident(site.n.rel)))
    else vals == was
  }

  ghost predicate OnlyOne(ids: map<nat, Value>, a: nat)
    requires a in ids
  {
    forall b :: b in ids && ids[b] == ids[a] ==> b == a
  }

  ghost predicate KeysAfter(env: Env, site: Site, before: Temps, after: Temps, ids: map<nat, Value>, t0: Table,
                            t1: Table)
    requires ids.Keys <= before.Keys && ids.Keys <= after.Keys
  {
    match site.n.mode
    case INSERT => forall a :: a in ids ==> HoldsKeys(env, site, before[a].vals, after[a].vals, t1, ids[a])
    case UPSERT => forall a :: a in ids ==> HoldsKeys(env, site, before[a].vals, after[a].vals, t1, ids[a])
    case MERGE => forall a :: a in ids ==> HoldsKeys(env, site, before[a].vals, after[a].vals, t1, ids[a])
    case MERGE_NEW => forall a :: a in ids ==> Recovers(env, site, before[a].vals, after[a].vals, ids[a], t0, t1)
    case UPDATE_EXISTING => forall a :: a in ids ==> Finds(env, site, before[a].vals, after[a].vals, ids, a, t0, t1)
    case MERGE_UPDATE => forall a :: a in ids ==> Finds(env, site, before[a].vals, after[a].vals, ids, a, t0, t1)
    case DELETE_ONLY => forall a :: a in ids ==> after[a].vals == before[a].vals
    case READONLY => forall a :: a in ids ==> after[a].vals == before[a].vals
  }

  /** An update hands back the keys of the rows it found, for one of the payload rows of each. */
  ghost predicate Finds(env: Env, site: Site, was: Row, vals: Row, ids: map<nat, Value>, a: nat, t0: Table, t1: Table)
    requires a in ids
  {
    && (vals == was || (ids[a] in t0 && HoldsKeys(env, site, was, vals, t1, ids[a])))
    && (ids[a] in t0 && OnlyOne(ids, a) ==> HoldsKeys(env, site, was, vals, t1, ids[a]))
  }

  // ---- one statement ----------------------------------------------------------------------------------------------

  /** What the proofs below know of resolved rows. */
  ghost predicate Resolves(env: Env, site: Site, temps: Temps, res: map<nat, Row>, cols: set<Col>, ids: map<nat,
                           Value>) {
    && res.Keys == ids.Keys <= temps.Keys
    && (forall a :: a in res ==> res[a].Keys == cols && Get(res[a], env.ident(site.n.rel)) == ids[a])
    && forall a, c :: a in res && c in cols ==> Due(env, site, temps, temps, a, c, res[a][c])
  }

  lemma ResolvesAll(env: Env, temps: Temps, tn: Nodes, site: Site, cols: set<Col>) returns (ids: map<nat, Value>)
    requires Joinable(temps, tn, site) && ChildrenOwned(temps, tn, site) && env.ident(site.n.rel) in cols
    ensures Identified(env, site, temps, temps, ids)
    ensures Resolves(env, site, temps, Resolved(env, temps, tn, site, cols), cols, ids)
    ensures forall a :: a in ids ==> ids[a] == ColumnValueAt(env, temps, tn, site, a)
  {
    hide Due, Joinable, ChildrenOwned, ColumnValue, Sources;
    var res := Resolved(env, temps, tn, site, cols);
    ids := map a | a in res :: Get(res[a], env.ident(site.n.rel));
    forall a ensures a in ids <==> IsOwn(temps, site.n, a) {
      ResolvedKeys(env, temps, tn, site, a);
    }
    forall a, c | a in res && c in cols ensures Due(env, site, temps, temps, a, c, res[a][c]) {
      ResolvedDue(env, temps, tn, site, cols, a, c);
    }
  }

  /** The identity a row resolves to, whichever columns are resolved beside it. */
  ghost function ColumnValueAt(env: Env, temps: Temps, tn: Nodes, site: Site, a: nat): Value {
    if a in Sources(temps, tn, site) then ColumnValue(env, temps, tn, site, temps[a], env.ident(site.n.rel)) else Null
  }

  lemma NewIs(env: Env, site: Site, temps: Temps, res: map<nat, Row>, ids: map<nat, Value>, a: nat)
    requires Resolves(env, site, temps, res, InsertColumns(env, site), ids) && a in ids
    ensures IsNew(env, site, temps, temps, a, NewRow(env, site.n.rel, a, res[a]))
  {
    hide Due, Given, InsertColumns;
    var r := NewRow(env, site.n.rel, a, res[a]);
    forall c
      ensures (c in r <==> c in env.columns(site.n.rel) || Given(env, site, c))
              && (c in r ==> Fresh(env, site, temps, temps, a, c, r[c]))
    {
      GivenIff(env, site, c);
    }
  }

  lemma OverwrittenIs(env: Env, site: Site, temps: Temps, res: map<nat, Row>, ids: map<nat, Value>, a: nat, old_: Row)
    requires Resolves(env, site, temps, res, InsertColumns(env, site), ids) && a in ids
    ensures IsOverwritten(env, site, temps, temps, a, old_,
                          old_ + Restrict(NewRow(env, site.n.rel, a, res[a]), SetColumns(env, site)))
  {
    hide Due, Given, InsertColumns, NewRow, Fresh, SetColumns, Changed;
    NewIs(env, site, temps, res, ids, a);
    var made := NewRow(env, site.n.rel, a, res[a]);
    var r := old_ + Restrict(made, SetColumns(env, site));
    forall c
      ensures if Changed(env, site, c)
              then c in r && (if Given(env, site, c) || c in env.columns(site.n.rel)
                              then Fresh(env, site, temps, temps, a, c, r[c]) else r[c] == Null)
              else (c in r <==> c in old_) && (c in r ==> r[c] == old_[c])
    {
      GivenIff(env, site, c);
    }
  }

  lemma UpdatedIs(env: Env, site: Site, temps: Temps, res: map<nat, Row>, ids: map<nat, Value>, a: nat, old_: Row)
    requires Resolves(env, site, temps, res, SetColumns(env, site) + {env.ident(site.n.rel)}, ids) && a in ids
    ensures IsUpdated(env, site, temps, temps, a, old_, UpdatedRow(env, site, temps, res[a], a, old_))
  {
    hide Due, SetColumns, Changed, Joined, KeyLinked;
    var r := UpdatedRow(env, site, temps, res[a], a, old_);
    forall c
      ensures if Changed(env, site, c) && (Joined(site, c) || c in temps[a].mask)
              then c in r && Due(env, site, temps, temps, a, c, r[c])
              else (c in r <==> c in old_) && (c in r ==> r[c] == old_[c])
    {
      GivenIff(env, site, c);
      JoinedIff(site, c);
    }
  }

  ghost function UpdatedRow(env: Env, site: Site, temps: Temps, r: Row, a: nat, old_: Row): Row
    requires a in temps
  {
    old_ + map c | c in SetColumns(env, site) && (KeyLinked(site, c) || c in temps[a].mask) :: Get(r, c)
  }

  lemma IdentsAmong(env: Env, site: Site, temps: Temps, res: map<nat, Row>, cols: set<Col>, ids: map<nat, Value>)
    requires Resolves(env, site, temps, res, cols, ids)
    ensures forall k :: k in Idents(res, env.ident(site.n.rel)) <==> Among(ids, k)
    ensures DistinctIdents(res, env.ident(site.n.rel)) <==> Named(ids) && Apart(ids)
    ensures Null in Idents(res, env.ident(site.n.rel)) <==> !Named(ids)
    ensures forall k :: k in Idents(res, env.ident(site.n.rel)) ==>
                          Pick(res, env.ident(site.n.rel), k) in ids && ids[Pick(res, env.ident(site.n.rel), k)] == k
  {
    hide Due;
  }

  lemma InsertTable(env: Env, site: Site, temps: Temps, res: map<nat, Row>, ids: map<nat, Value>, t0: Table)
    requires Resolves(env, site, temps, res, InsertColumns(env, site), ids)
    requires Named(ids) && Apart(ids) && t0.Keys * Idents(res, env.ident(site.n.rel)) == {}
    ensures Inserts(env, site, temps, temps, ids, t0, InsertNew(env, t0, site.n.rel, res))
  {
    hide NewRow, IsNew, Resolves, Idents, DistinctIdents, InsertColumns;
    IdentsAmong(env, site, temps, res, InsertColumns(env, site), ids);
    ResolvesKeys(env, site, temps, res, InsertColumns(env, site), ids);
    var t1 := InsertNew(env, t0, site.n.rel, res);
    forall a | a in ids ensures ids[a] !in t0 && ids[a] in t1 && IsNew(env, site, temps, temps, a, t1[ids[a]]) {
      assert ids[a] in Idents(res, env.ident(site.n.rel));
      assert ids[a] !in t0.Keys * Idents(res, env.ident(site.n.rel));
      NewIs(env, site, temps, res, ids, a);
    }
  }

  lemma ResolvesKeys(env: Env, site: Site, temps: Temps, res: map<nat, Row>, cols: set<Col>, ids: map<nat, Value>)
    requires Resolves(env, site, temps, res, cols, ids)
    ensures res.Keys == ids.Keys <= temps.Keys
    ensures forall a :: a in ids ==> Among(ids, ids[a])
  {
    hide Due;
  }

  lemma InsertNewAt(env: Env, t0: Table, rel: Rel, res: map<nat, Row>, k: Value)
    ensures var t1 := InsertNew(env, t0, rel, res);
            && (k in t1 <==> k in t0 || k in Idents(res, env.ident(rel)))
            && (k in t0 ==> t1[k] == t0[k])
            && (k !in t0 && k in Idents(res, env.ident(rel)) ==>
                  var a := Pick(res, env.ident(rel), k); t1[k] == NewRow(env, rel, a, res[a]))
  {
    hide NewRow, Idents, Pick;
  }

  lemma MissingTable(env: Env, site: Site, temps: Temps, res: map<nat, Row>, ids: map<nat, Value>, t0: Table)
    requires Resolves(env, site, temps, res, InsertColumns(env, site), ids) && Named(ids)
    ensures InsertsMissing(env, site, temps, temps, ids, t0, InsertNew(env, t0, site.n.rel, res))
  {
    hide NewRow, IsNew, Resolves, Idents, InsertColumns, InsertNew, Among;
    IdentsAmong(env, site, temps, res, InsertColumns(env, site), ids);
    ResolvesKeys(env, site, temps, res, InsertColumns(env, site), ids);
    var t1 := InsertNew(env, t0, site.n.rel, res);
    forall k | k in t0 || !Among(ids, k) ensures SameAt(t0, t1, k) {
      InsertNewAt(env, t0, site.n.rel, res, k);
    }
    forall k | k !in t0 && Among(ids, k)
      ensures k in t1 && exists a :: a in ids && ids[a] == k && IsNew(env, site, temps, temps, a, t1[k])
    {
      InsertNewAt(env, t0, site.n.rel, res, k);
      NewIs(env, site, temps, res, ids, Pick(res, env.ident(site.n.rel), k));
    }
  }

  lemma UpsertedTable(env: Env, site: Site, temps: Temps, res: map<nat, Row>, ids: map<nat, Value>, t0: Table)
    requires Resolves(env, site, temps, res, InsertColumns(env, site), ids) && Named(ids) && Apart(ids)
    ensures UpsertsAll(env, site, temps, temps, ids, t0,
                       UpsertTable(env, t0, site.n.rel, res, SetColumns(env, site)))
  {
    hide NewRow, IsNew, IsOverwritten, Resolves, Idents, DistinctIdents, InsertColumns, SetColumns, Restrict;
    IdentsAmong(env, site, temps, res, InsertColumns(env, site), ids);
    ResolvesKeys(env, site, temps, res, InsertColumns(env, site), ids);
    var t1 := UpsertTable(env, t0, site.n.rel, res, SetColumns(env, site));
    forall a | a in ids
      ensures ids[a] in t1 && if ids[a] in t0 then IsOverwritten(env, site, temps, temps, a, t0[ids[a]], t1[ids[a]])
                              else IsNew(env, site, temps, temps, a, t1[ids[a]])
    {
      assert Pick(res, env.ident(site.n.rel), ids[a]) == a;
      NewIs(env, site, temps, res, ids, a);
      if ids[a] in t0 {
        OverwrittenIs(env, site, temps, res, ids, a, t0[ids[a]]);
      }
    }
  }

  lemma UpdatedTable(env: Env, site: Site, temps: Temps, res: map<nat, Row>, ids: map<nat, Value>, t0: Table)
    requires Resolves(env, site, temps, res, SetColumns(env, site) + {env.ident(site.n.rel)}, ids)
    requires res.Keys <= temps.Keys
    ensures UpdatesFound(env, site, temps, temps, ids, t0, UpdateTable(env, t0, site, res, temps))
  {
    hide IsUpdated, Resolves, Idents, DistinctIdents, SetColumns, KeyLinked;
    var cols := SetColumns(env, site) + {env.ident(site.n.rel)};
    IdentsAmong(env, site, temps, res, cols, ids);
    ResolvesKeys(env, site, temps, res, cols, ids);
    var t1 := UpdateTable(env, t0, site, res, temps);
    forall k | k in t0 && Among(ids, k)
      ensures k in t1 && exists a :: a in ids && ids[a] == k && IsUpdated(env, site, temps, temps, a, t0[k], t1[k])
    {
      var a := Pick(res, env.ident(site.n.rel), k);
      UpdatedIs(env, site, temps, res, ids, a, t0[k]);
      assert t1[k] == UpdatedRow(env, site, temps, res[a], a, t0[k]);
    }
  }

  // ---- the keys a statement hands back ----------------------------------------------------------------------------

  /** A temp row written back from a row of the table. */
  lemma BackFrom(env: Env, site: Site, temps: Temps, from: map<nat, Row>, a: nat, t1: Table, k: Value)
    requires a in temps && a in from && k in t1
    requires forall c :: HandedBack(env, site, c) ==> Get(from[a], c) == Get(t1[k], c)
    ensures HoldsKeys(env, site, temps[a].vals, WriteBack(temps, from, KeyColumns(env, site))[a].vals, t1, k)
  {
    hide HandedBack, KeyColumns;
    forall c ensures c in KeyColumns(env, site) <==> HandedBack(env, site, c) {
      HandedBackIff(env, site, c);
    }
  }

  lemma InsertKeys(env: Env, site: Site, temps: Temps, res: map<nat, Row>, ids: map<nat, Value>, t0: Table, a: nat)
    requires Resolves(env, site, temps, res, InsertColumns(env, site), ids) && Named(ids) && Apart(ids)
    requires t0.Keys * Idents(res, env.ident(site.n.rel)) == {} && a in ids
    ensures HoldsKeys(env, site, temps[a].vals, WriteBack(temps, res, KeyColumns(env, site))[a].vals,
                      InsertNew(env, t0, site.n.rel, res), ids[a])
  {
    hide Idents, DistinctIdents, InsertColumns, WriteBack, HandedBack, KeyColumns, Due, NewRow, HoldsKeys;
    var ident := env.ident(site.n.rel);
    IdentsAmong(env, site, temps, res, InsertColumns(env, site), ids);
    ResolvesKeys(env, site, temps, res, InsertColumns(env, site), ids);
    assert ids[a] in Idents(res, ident) && ids[a] !in t0.Keys * Idents(res, ident);
    assert Pick(res, ident, ids[a]) == a;
    var t1 := InsertNew(env, t0, site.n.rel, res);
    assert t1[ids[a]] == NewRow(env, site.n.rel, a, res[a]);
    forall c | HandedBack(env, site, c) ensures Get(res[a], c) == Get(t1[ids[a]], c) {
      GivenIff(env, site, c);
      assert c in res[a];
      NewRowIdent(env, site.n.rel, a, res[a], c);
    }
    BackFrom(env, site, temps, res, a, t1, ids[a]);
  }

  lemma UpsertKeys(env: Env, site: Site, temps: Temps, res: map<nat, Row>, ids: map<nat, Value>, t1: Table, a: nat)
    requires Resolves(env, site, temps, res, InsertColumns(env, site), ids) && a in ids && ids[a] in t1
    ensures HoldsKeys(env, site, temps[a].vals,
                      WriteBack(temps, Found(t1, res, env.ident(site.n.rel)), KeyColumns(env, site))[a].vals,
                      t1, ids[a])
  {
    hide InsertColumns, WriteBack, HandedBack, KeyColumns, Due, HoldsKeys;
    BackFrom(env, site, temps, Found(t1, res, env.ident(site.n.rel)), a, t1, ids[a]);
  }

  lemma NotBack(temps: Temps, from: map<nat, Row>, keys: set<Col>, a: nat)
    requires a in temps && a !in from
    ensures WriteBack(temps, from, keys)[a] == temps[a]
  {
  }

  lemma HoldsTwice(env: Env, site: Site, was: Row, mid: Row, vals: Row, t1: Table, k: Value)
    requires HoldsKeys(env, site, was, mid, t1, k) && HoldsKeys(env, site, mid, vals, t1, k)
    ensures HoldsKeys(env, site, was, vals, t1, k)
  {
    hide HandedBack;
  }

  lemma UpdateKeys(env: Env, site: Site, temps: Temps, res: map<nat, Row>, ids: map<nat, Value>, t0: Table, t1: Table,
                   a: nat)
    requires Resolves(env, site, temps, res, SetColumns(env, site) + {env.ident(site.n.rel)}, ids) && a in ids
    requires t1.Keys == t0.Keys
    ensures var back := UpdatedRows(t1, res, env.ident(site.n.rel), SetColumns(env, site));
            Finds(env, site, temps[a].vals, WriteBack(temps, back, KeyColumns(env, site))[a].vals, ids, a, t0, t1)
  {
    hide SetColumns, WriteBack, HandedBack, KeyColumns, Due, HoldsKeys;
    var ident := env.ident(site.n.rel);
    var back := UpdatedRows(t1, res, ident, SetColumns(env, site));
    IdentsAmong(env, site, temps, res, SetColumns(env, site) + {ident}, ids);
    assert ids[a] in t0 && OnlyOne(ids, a) ==> a in back by {
      assert Among(ids, ids[a]);
    }
    if a in back {
      BackFrom(env, site, temps, back, a, t1, ids[a]);
    } else {
      NotBack(temps, back, KeyColumns(env, site), a);
    }
  }

  lemma MergeNewKeys(env: Env, s: State, tn: Nodes, site: Site, ids: map<nat, Value>, a: nat)
    requires RunMergeNew(env, s, tn, site).Some? && Owns(tn, s.temps, site.n) && IsOwn(s.temps, site.n, a)
    requires Resolves(env, site, s.temps, Resolved(env, s.temps, tn, site, InsertColumns(env, site)),
                      InsertColumns(env, site), ids) && a in ids
    requires Keyed(TableOf(s.db, site.n.rel), env.ident(site.n.rel))
    ensures var s' := RunMergeNew(env, s, tn, site).value;
            a in s'.temps
            && Recovers(env, site, s.temps[a].vals, s'.temps[a].vals, ids[a], TableOf(s.db, site.n.rel),
                        TableOf(s'.db, site.n.rel))
  {
    hide InsertColumns, WriteBack, HandedBack, KeyColumns, Due, HoldsKeys, InsertNew, Resolved, Idents, Owns, Keyed,
         Resolves, Inserted, Recovered, RunMergeNew, SameRows, TableOf;
    var ident, keys := env.ident(site.n.rel), KeyColumns(env, site);
    var res := Resolved(env, s.temps, tn, site, InsertColumns(env, site));
    var t0 := TableOf(s.db, site.n.rel);
    var t1 := InsertNew(env, t0, site.n.rel, res);
    var mid := WriteBack(s.temps, Inserted(t0, t1, res, ident), keys);
    MergeNewParts(env, s, tn, site);
    InsertedKeys(env, site, s.temps, tn, res, ids, t0, a);
    WriteBackFrame(s.temps, Inserted(t0, t1, res, ident), keys);
    SameRowsOwn(tn, s.temps, mid, site.n);
    SameOwn(s.temps, mid, site.n, a);
    RecoveredKeys(env, site, mid, tn, t1, a);
    if ids[a] !in t0 {
      IdentOf(env, site, s.temps[a].vals, mid[a].vals, t1, ids[a]);
      KeyThere(env, site, s.temps[a].vals, mid[a].vals, t1, ids[a]);
      HoldsTwice(env, site, s.temps[a].vals, mid[a].vals,
                 WriteBack(mid, Recovered(t1, mid, tn, site.n, ident), keys)[a].vals, t1, ids[a]);
    }
  }

  lemma KeyThere(env: Env, site: Site, was: Row, vals: Row, t1: Table, k: Value)
    requires HoldsKeys(env, site, was, vals, t1, k)
    ensures k in t1
  {
  }

  /** The two write-backs of a merge-new. */
  lemma MergeNewParts(env: Env, s: State, tn: Nodes, site: Site)
    requires RunMergeNew(env, s, tn, site).Some?
    ensures var s' := RunMergeNew(env, s, tn, site).value;
            var res := Resolved(env, s.temps, tn, site, InsertColumns(env, site));
            var t0, ident, keys := TableOf(s.db, site.n.rel), env.ident(site.n.rel), KeyColumns(env, site);
            var t1 := InsertNew(env, t0, site.n.rel, res);
            var mid := WriteBack(s.temps, Inserted(t0, t1, res, ident), keys);
            && TableOf(s'.db, site.n.rel) == t1
            && s'.temps == WriteBack(mid, Recovered(t1, mid, tn, site.n, ident), keys)
            && !(Null in Idents(res, ident))
  {
    hide InsertColumns, WriteBack, KeyColumns, InsertNew, Resolved, Idents, Inserted, Recovered;
  }

  lemma IdentBack(env: Env, site: Site)
    ensures HandedBack(env, site, env.ident(site.n.rel))
  {
  }

  lemma IdentOf(env: Env, site: Site, was: Row, vals: Row, t1: Table, k: Value)
    requires HoldsKeys(env, site, was, vals, t1, k) && Get(t1[k], env.ident(site.n.rel)) == k
    ensures Get(vals, env.ident(site.n.rel)) == k
  {
    IdentBack(env, site);
  }

  /** The first write-back of a merge-new: rows inserted by this statement. */
  lemma InsertedKeys(env: Env, site: Site, temps: Temps, tn: Nodes, res: map<nat, Row>, ids: map<nat, Value>, t0: Table,
                     a: nat)
    requires Resolves(env, site, temps, res, InsertColumns(env, site), ids) && a in ids
             && Keyed(t0, env.ident(site.n.rel))
    ensures var t1 := InsertNew(env, t0, site.n.rel, res);
            var mid := WriteBack(temps, Inserted(t0, t1, res, env.ident(site.n.rel)), KeyColumns(env, site));
            && a in mid
            && (if ids[a] !in t0 then HoldsKeys(env, site, temps[a].vals, mid[a].vals, t1, ids[a])
                                      && Get(t1[ids[a]], env.ident(site.n.rel)) == ids[a]
                else mid[a] == temps[a])
  {
    hide InsertColumns, WriteBack, HandedBack, KeyColumns, Due, HoldsKeys, InsertNew, Idents;
    var ident := env.ident(site.n.rel);
    var t1 := InsertNew(env, t0, site.n.rel, res);
    var inserted := Inserted(t0, t1, res, ident);
    TableKeys(env, t0, site.n.rel, res, {});
    IdentsAmong(env, site, temps, res, InsertColumns(env, site), ids);
    if ids[a] !in t0 {
      assert Among(ids, ids[a]);
      BackFrom(env, site, temps, inserted, a, t1, ids[a]);
      GivenIff(env, site, ident);
      IdentGiven(env, site);
      InsertKeyed(env, t0, site.n.rel, res);
    } else {
      NotBack(temps, inserted, KeyColumns(env, site), a);
    }
  }

  lemma IdentGiven(env: Env, site: Site)
    ensures env.ident(site.n.rel) in InsertColumns(env, site)
  {
  }

  /** The second: rows the table holds for the identity in the temp row. */
  lemma RecoveredKeys(env: Env, site: Site, mid: Temps, tn: Nodes, t1: Table, a: nat)
    requires IsOwn(mid, site.n, a) && Owns(tn, mid, site.n)
    ensures var k := Get(mid[a].vals, env.ident(site.n.rel));
            var vals := WriteBack(mid, Recovered(t1, mid, tn, site.n, env.ident(site.n.rel)),
                                  KeyColumns(env, site))[a].vals;
            if k in t1 then HoldsKeys(env, site, mid[a].vals, vals, t1, k) else vals == mid[a].vals
  {
    hide WriteBack, HandedBack, KeyColumns, HoldsKeys;
    var k := Get(mid[a].vals, env.ident(site.n.rel));
    var recovered := Recovered(t1, mid, tn, site.n, env.ident(site.n.rel));
    if k in t1 {
      BackFrom(env, site, mid, recovered, a, t1, k);
    } else {
      NotBack(mid, recovered, KeyColumns(env, site), a);
    }
  }

  // ---- a statement, whole -----------------------------------------------------------------------------------------

  /** The database refuses the rows of a statement. */
  ghost predicate Refuses(env: Env, site: Site, ids: map<nat, Value>, t0: Table) {
    match site.n.mode
    case INSERT => !Named(ids) || !Apart(ids) || exists a :: a in ids && ids[a] in t0
    case MERGE_NEW => !Named(ids)
    case UPSERT => !Named(ids) || !Apart(ids)
    case MERGE => !Named(ids) || !Apart(ids)
    case _ => false
  }

  /** What a statement leaves: the table its mode promises, and the keys in its temp rows. */
  ghost predicate Outcome(env: Env, site: Site, before: Temps, kin: Temps, after: Temps, ids: map<nat, Value>,
                          t0: Table, t1: Table) {
    && Identified(env, site, before, kin, ids) && before.Keys == after.Keys && ids.Keys <= before.Keys
    && TableAfter(env, site, before, kin, ids, t0, t1) && KeysAfter(env, site, before, after, ids, t0, t1)
  }

  ghost predicate OutgoingRead(site: Site) {
    exists k :: k in site.n.outgoing && k.mode.READONLY?
  }

  lemma IdentColumns(env: Env, site: Site)
    ensures env.ident(site.n.rel) in InsertColumns(env, site)
  {
  }

  /** The pieces of an outcome. */
  lemma Pieces(env: Env, site: Site, before: Temps, after: Temps, ids: map<nat, Value>, t0: Table, t1: Table)
    requires Identified(env, site, before, before, ids) && before.Keys == after.Keys && ids.Keys <= before.Keys
    requires TableAfter(env, site, before, before, ids, t0, t1) && KeysAfter(env, site, before, after, ids, t0, t1)
    ensures Outcome(env, site, before, before, after, ids, t0, t1)
  {
    hide Identified, TableAfter, KeysAfter;
  }

  lemma InsertRefused(env: Env, s: State, tn: Nodes, site: Site, ids: map<nat, Value>)
    requires site.n.mode == INSERT
    requires Resolves(env, site, s.temps, Resolved(env, s.temps, tn, site, InsertColumns(env, site)),
                      InsertColumns(env, site), ids)
    ensures RunInsert(env, s, tn, site).None? <==> Refuses(env, site, ids, TableOf(s.db, site.n.rel))
    ensures RunInsert(env, s, tn, site).Some? ==>
              Named(ids) && Apart(ids)
              && var res := Resolved(env, s.temps, tn, site, InsertColumns(env, site));
                 TableOf(s.db, site.n.rel).Keys * Idents(res, env.ident(site.n.rel)) == {}
  {
    hide InsertColumns, KeyColumns, InsertNew, Resolved, Idents, Resolves, DistinctIdents, WriteBack, Named, Apart,
         TableOf;
    var res := Resolved(env, s.temps, tn, site, InsertColumns(env, site));
    var met := TableOf(s.db, site.n.rel).Keys * Idents(res, env.ident(site.n.rel));
    ResolvesKeys(env, site, s.temps, res, InsertColumns(env, site), ids);
    IdentsAmong(env, site, s.temps, res, InsertColumns(env, site), ids);
    if a :| a in ids && ids[a] in TableOf(s.db, site.n.rel) {
      assert ids[a] in met;
    }
    if met != {} {
      var k :| k in met;
      assert Among(ids, k);
    }
  }

  lemma RunInsertIs(env: Env, s: State, tn: Nodes, site: Site, ids: map<nat, Value>)
    requires Identified(env, site, s.temps, s.temps, ids) && site.n.mode == INSERT
    requires Resolves(env, site, s.temps, Resolved(env, s.temps, tn, site, InsertColumns(env, site)),
                      InsertColumns(env, site), ids)
    ensures var r, t0 := RunInsert(env, s, tn, site), TableOf(s.db, site.n.rel);
            && (r.None? <==> Refuses(env, site, ids, t0))
            && (r.Some? ==>
                  Outcome(env, site, s.temps, s.temps, r.value.temps, ids, t0, TableOf(r.value.db, site.n.rel)))
  {
    hide InsertColumns, KeyColumns, HoldsKeys, InsertNew, Resolved, Idents, Resolves, DistinctIdents, WriteBack,
         Inserts, Identified, Outcome, Refuses, Named, Apart;
    InsertRefused(env, s, tn, site, ids);
    if RunInsert(env, s, tn, site).Some? {
      var res := Resolved(env, s.temps, tn, site, InsertColumns(env, site));
      var t0 := TableOf(s.db, site.n.rel);
      var t1 := InsertNew(env, t0, site.n.rel, res);
      ResolvesKeys(env, site, s.temps, res, InsertColumns(env, site), ids);
      InsertTable(env, site, s.temps, res, ids, t0);
      var after := WriteBack(s.temps, res, KeyColumns(env, site));
      BackKeys(s.temps, res, KeyColumns(env, site));
      forall a | a in ids ensures HoldsKeys(env, site, s.temps[a].vals, after[a].vals, t1, ids[a]) {
        InsertKeys(env, site, s.temps, res, ids, t0, a);
      }
      Pieces(env, site, s.temps, after, ids, t0, t1);
    }
  }

  lemma BackKeys(temps: Temps, from: map<nat, Row>, keys: set<Col>)
    ensures WriteBack(temps, from, keys).Keys == temps.Keys
  {
  }

  lemma MergeNewRefused(env: Env, s: State, tn: Nodes, site: Site, ids: map<nat, Value>)
    requires site.n.mode == MERGE_NEW
    requires Resolves(env, site, s.temps, Resolved(env, s.temps, tn, site, InsertColumns(env, site)),
                      InsertColumns(env, site), ids)
    ensures RunMergeNew(env, s, tn, site).None? <==> Refuses(env, site, ids, TableOf(s.db, site.n.rel))
    ensures RunMergeNew(env, s, tn, site).Some? ==> Named(ids)
  {
    hide InsertColumns, KeyColumns, InsertNew, Resolved, Idents, Resolves, WriteBack, Named, TableOf, Inserted,
         Recovered;
    IdentsAmong(env, site, s.temps, Resolved(env, s.temps, tn, site, InsertColumns(env, site)),
                InsertColumns(env, site), ids);
  }

  lemma RunMergeNewIs(env: Env, s: State, tn: Nodes, site: Site, ids: map<nat, Value>)
    requires Joinable(s.temps, tn, site) && Keyed(TableOf(s.db, site.n.rel), env.ident(site.n.rel))
    requires Identified(env, site, s.temps, s.temps, ids) && site.n.mode == MERGE_NEW
    requires Resolves(env, site, s.temps, Resolved(env, s.temps, tn, site, InsertColumns(env, site)),
                      InsertColumns(env, site), ids)
    ensures var r, t0 := RunMergeNew(env, s, tn, site), TableOf(s.db, site.n.rel);
            && (r.None? <==> Refuses(env, site, ids, t0))
            && (r.Some? ==>
                  Outcome(env, site, s.temps, s.temps, r.value.temps, ids, t0, TableOf(r.value.db, site.n.rel)))
  {
    hide InsertColumns, Due, Recovers, InsertNew, Resolved, Idents, Resolves, InsertsMissing, Keyed, Owns, Outcome,
         Refuses, Named, RunMergeNew, TableOf, WriteBack, Inserted, Recovered, KeyColumns;
    MergeNewRefused(env, s, tn, site, ids);
    if RunMergeNew(env, s, tn, site).Some? {
      var res := Resolved(env, s.temps, tn, site, InsertColumns(env, site));
      var t0 := TableOf(s.db, site.n.rel);
      var t1 := InsertNew(env, t0, site.n.rel, res);
      var s' := RunMergeNew(env, s, tn, site).value;
      ResolvesKeys(env, site, s.temps, res, InsertColumns(env, site), ids);
      MergeNewParts(env, s, tn, site);
      MissingTable(env, site, s.temps, res, ids, t0);
      forall a | a in ids
        ensures a in s'.temps && Recovers(env, site, s.temps[a].vals, s'.temps[a].vals, ids[a], t0, t1)
      {
        MergeNewKeys(env, s, tn, site, ids, a);
      }
      Pieces(env, site, s.temps, s'.temps, ids, t0, t1);
    }
  }

  lemma UpsertRefused(env: Env, s: State, tn: Nodes, site: Site, ids: map<nat, Value>)
    requires Upserts(site.n.mode)
    requires Resolves(env, site, s.temps, Resolved(env, s.temps, tn, site, InsertColumns(env, site)),
                      InsertColumns(env, site), ids)
    ensures RunUpsert(env, s, tn, site).None? <==> Refuses(env, site, ids, TableOf(s.db, site.n.rel))
    ensures RunUpsert(env, s, tn, site).Some? ==> Named(ids) && Apart(ids)
  {
    hide InsertColumns, SetColumns, KeyColumns, UpsertTable, Resolved, Idents, Resolves, WriteBack, Named, Apart,
         TableOf, Found, DistinctIdents;
    IdentsAmong(env, site, s.temps, Resolved(env, s.temps, tn, site, InsertColumns(env, site)),
                InsertColumns(env, site), ids);
  }

  lemma RunUpsertIs(env: Env, s: State, tn: Nodes, site: Site, ids: map<nat, Value>)
    requires Identified(env, site, s.temps, s.temps, ids) && Upserts(site.n.mode)
    requires Resolves(env, site, s.temps, Resolved(env, s.temps, tn, site, InsertColumns(env, site)),
                      InsertColumns(env, site), ids)
    ensures var r, t0 := RunUpsert(env, s, tn, site), TableOf(s.db, site.n.rel);
            && (r.None? <==> Refuses(env, site, ids, t0))
            && (r.Some? ==>
                  Outcome(env, site, s.temps, s.temps, r.value.temps, ids, t0, TableOf(r.value.db, site.n.rel)))
  {
    hide InsertColumns, KeyColumns, SetColumns, HoldsKeys, UpsertTable, Resolved, Resolves, DistinctIdents,
         WriteBack, UpsertsAll, Identified, Found, Outcome, Refuses, Named, Apart;
    UpsertRefused(env, s, tn, site, ids);
    if RunUpsert(env, s, tn, site).Some? {
      var res := Resolved(env, s.temps, tn, site, InsertColumns(env, site));
      var t0 := TableOf(s.db, site.n.rel);
      var t1 := UpsertTable(env, t0, site.n.rel, res, SetColumns(env, site));
      ResolvesKeys(env, site, s.temps, res, InsertColumns(env, site), ids);
      UpsertedTable(env, site, s.temps, res, ids, t0);
      var after := WriteBack(s.temps, Found(t1, res, env.ident(site.n.rel)), KeyColumns(env, site));
      BackKeys(s.temps, Found(t1, res, env.ident(site.n.rel)), KeyColumns(env, site));
      forall a | a in ids ensures HoldsKeys(env, site, s.temps[a].vals, after[a].vals, t1, ids[a]) {
        UpsertsHas(env, site, s.temps, ids, t0, t1, a);
        UpsertKeys(env, site, s.temps, res, ids, t1, a);
      }
      Pieces(env, site, s.temps, after, ids, t0, t1);
    }
  }

  lemma UpsertsHas(env: Env, site: Site, temps: Temps, ids: map<nat, Value>, t0: Table, t1: Table, a: nat)
    requires ids.Keys <= temps.Keys && UpsertsAll(env, site, temps, temps, ids, t0, t1) && a in ids
    ensures ids[a] in t1
  {
  }

  lemma RunUpdateIs(env: Env, s: State, tn: Nodes, site: Site, ids: map<nat, Value>)
    requires Identified(env, site, s.temps, s.temps, ids)
             && (site.n.mode == UPDATE_EXISTING || site.n.mode == MERGE_UPDATE)
    requires var cols := SetColumns(env, site) + {env.ident(site.n.rel)};
             Resolves(env, site, s.temps, Resolved(env, s.temps, tn, site, cols), cols, ids)
    ensures var r, t0 := RunUpdate(env, s, tn, site), TableOf(s.db, site.n.rel);
            && r.Some?
            && Outcome(env, site, s.temps, s.temps, r.value.temps, ids, t0, TableOf(r.value.db, site.n.rel))
  {
    hide KeyColumns, SetColumns, Finds, UpdateTable, Resolved, Resolves, WriteBack, UpdatesFound, Identified,
         UpdatedRows, Outcome;
    var cols := SetColumns(env, site) + {env.ident(site.n.rel)};
    var res := Resolved(env, s.temps, tn, site, cols);
    var t0 := TableOf(s.db, site.n.rel);
    ResolvesKeys(env, site, s.temps, res, cols, ids);
    UpdatedTable(env, site, s.temps, res, ids, t0);
    var t1 := UpdateTable(env, t0, site, res, s.temps);
    UpdatedKeys(env, t0, site, res, s.temps);
    var back := UpdatedRows(t1, res, env.ident(site.n.rel), SetColumns(env, site));
    var after := WriteBack(s.temps, back, KeyColumns(env, site));
    BackKeys(s.temps, back, KeyColumns(env, site));
    forall a | a in ids ensures Finds(env, site, s.temps[a].vals, after[a].vals, ids, a, t0, t1) {
      UpdateKeys(env, site, s.temps, res, ids, t0, t1, a);
    }
    Pieces(env, site, s.temps, after, ids, t0, t1);
  }

  /**
   Every write mode: a statement is refused exactly when an outgoing child is not written or the database refuses the
   identities of its rows, and else leaves the table and the keys its mode promises.
   */
  lemma StatementOutcome(env: Env, s: State, tn: Nodes, site: Site) returns (ids: map<nat, Value>)
    requires Joinable(s.temps, tn, site) && ChildrenOwned(s.temps, tn, site)
    requires Keyed(TableOf(s.db, site.n.rel), env.ident(site.n.rel))
    ensures Identified(env, site, s.temps, s.temps, ids)
    ensures var r, t0 := Run(env, s, tn, site), TableOf(s.db, site.n.rel);
            && (r.None? <==> OutgoingRead(site) || Refuses(env, site, ids, t0))
            && (r.Some? ==>
                  Outcome(env, site, s.temps, s.temps, r.value.temps, ids, t0, TableOf(r.value.db, site.n.rel)))
  {
    hide RunInsert, RunMergeNew, RunUpsert, RunUpdate, InsertColumns, SetColumns, Resolves, ChildrenOwned, Identified,
         Keyed, Joinable, Refuses, Outcome, Resolved, TableOf;
    ReadIff(site);
    match site.n.mode
    case INSERT =>
      IdentColumns(env, site);
      ids := ResolvesAll(env, s.temps, tn, site, InsertColumns(env, site));
      RunInsertIs(env, s, tn, site, ids);
    case MERGE_NEW =>
      IdentColumns(env, site);
      ids := ResolvesAll(env, s.temps, tn, site, InsertColumns(env, site));
      RunMergeNewIs(env, s, tn, site, ids);
    case UPSERT =>
      IdentColumns(env, site);
      ids := ResolvesAll(env, s.temps, tn, site, InsertColumns(env, site));
      RunUpsertIs(env, s, tn, site, ids);
    case MERGE =>
      IdentColumns(env, site);
      ids := ResolvesAll(env, s.temps, tn, site, InsertColumns(env, site));
      RunUpsertIs(env, s, tn, site, ids);
    case UPDATE_EXISTING =>
      ids := ResolvesAll(env, s.temps, tn, site, SetColumns(env, site) + {env.ident(site.n.rel)});
      RunUpdateIs(env, s, tn, site, ids);
      Unrefused(env, site, ids, TableOf(s.db, site.n.rel));
    case MERGE_UPDATE =>
      ids := ResolvesAll(env, s.temps, tn, site, SetColumns(env, site) + {env.ident(site.n.rel)});
      RunUpdateIs(env, s, tn, site, ids);
      Unrefused(env, site, ids, TableOf(s.db, site.n.rel));
    case _ =>
      ids := ResolvesAll(env, s.temps, tn, site, {env.ident(site.n.rel)});
      NothingRuns(env, site, s.temps, ids, TableOf(s.db, site.n.rel));
  }

  lemma ReadIff(site: Site)
    ensures OutgoingRead(site) <==> exists i :: 0 <= i < |site.n.outgoing| && site.n.outgoing[i].mode.READONLY?
  {
    if k :| k in site.n.outgoing && k.mode.READONLY? {
      var i :| 0 <= i < |site.n.outgoing| && site.n.outgoing[i] == k;
      assert site.n.outgoing[i].mode.READONLY?;
    }
  }

  lemma Unrefused(env: Env, site: Site, ids: map<nat, Value>, t0: Table)
    requires site.n.mode == UPDATE_EXISTING || site.n.mode == MERGE_UPDATE
    ensures !Refuses(env, site, ids, t0)
  {
  }

  lemma NothingRuns(env: Env, site: Site, temps: Temps, ids: map<nat, Value>, t0: Table)
    requires Identified(env, site, temps, temps, ids) && (site.n.mode == READONLY || site.n.mode == DELETE_ONLY)
    ensures !Refuses(env, site, ids, t0) && Outcome(env, site, temps, temps, temps, ids, t0, t0)
  {
  }

  // ---- the outcome at the end of a run ----------------------------------------------------------------------------

  /** The keys of parents and children are as they were. */
  ghost predicate SameKin(site: Site, own: set<nat>, before: Temps, kin: Temps, kin': Temps)
    requires own <= before.Keys
  {
    && (site.link.In? ==> forall a :: a in own && before[a].parent.Some? && before[a].parent.value in kin ==>
                                        before[a].parent.value in kin'
                                        && kin'[before[a].parent.value].vals == kin[before[a].parent.value].vals)
    && forall k, a, b :: k in site.n.outgoing && a in own ==>
         (ChildRow(kin, k, a, b) <==> ChildRow(kin', k, a, b))
         && (ChildRow(kin, k, a, b) ==> kin'[b].vals == kin[b].vals)
  }

  /** Row a is the same payload row for both. */
  ghost predicate SamePayload(before: Temps, before': Temps, a: nat) {
    a in before && a in before' && before'[a] == before[a]
  }

  lemma ChildsSame(kin: Temps, kin': Temps, k: Node, a: nat, v: Value)
    requires forall b :: ChildRow(kin, k, a, b) <==> ChildRow(kin', k, a, b)
    requires forall b :: ChildRow(kin, k, a, b) ==> b in kin && b in kin' && kin'[b].vals == kin[b].vals
    requires ChildsKey(kin, k, a, v)
    ensures ChildsKey(kin', k, a, v)
  {
    hide ChildRow;
    if b :| ChildRow(kin, k, a, b) && b in kin && v == Get(kin[b].vals, k.local) {
      assert ChildRow(kin', k, a, b);
    }
  }

  lemma KinOf(site: Site, own: set<nat>, before: Temps, kin: Temps, kin': Temps, k: Node, a: nat)
    requires own <= before.Keys && SameKin(site, own, before, kin, kin') && k in site.n.outgoing && a in own
    ensures forall b :: ChildRow(kin, k, a, b) <==> ChildRow(kin', k, a, b)
    ensures forall b :: ChildRow(kin, k, a, b) ==> b in kin && b in kin' && kin'[b].vals == kin[b].vals
  {
  }

  lemma DueSame(env: Env, site: Site, own: set<nat>, before: Temps, kin: Temps, before': Temps, kin': Temps, a: nat,
                c: Col, v: Value)
    requires own <= before.Keys && a in own && SamePayload(before, before', a) && SameKin(site, own, before, kin, kin')
    requires Due(env, site, before, kin, a, c, v)
    ensures Due(env, site, before', kin', a, c, v)
  {
    hide ChildRow, ChildsKey, SameKin;
    if site.link.In? && c == site.n.local {
      assert ParentsKey(kin', site, before'[a], v) by { ParentSame(site, own, before, kin, kin', a, v); }
    } else if exists k :: k in site.n.outgoing && k.distant == c {
      var i: nat :| FirstWith(site.n.outgoing, c, i) && ChildsKey(kin, site.n.outgoing[i], a, v);
      KinOf(site, own, before, kin, kin', site.n.outgoing[i], a);
      ChildsSame(kin, kin', site.n.outgoing[i], a, v);
    }
  }

  lemma ParentSame(site: Site, own: set<nat>, before: Temps, kin: Temps, kin': Temps, a: nat, v: Value)
    requires own <= before.Keys && a in own && SameKin(site, own, before, kin, kin') && site.link.In?
             && ParentsKey(kin, site, before[a], v)
    ensures ParentsKey(kin', site, before[a], v)
  {
    hide ChildRow;
  }

  lemma NewSame(env: Env, site: Site, own: set<nat>, before: Temps, kin: Temps, before': Temps, kin': Temps, a: nat,
                r: Row)
    requires own <= before.Keys && a in own && SamePayload(before, before', a) && SameKin(site, own, before, kin, kin')
    ensures IsNew(env, site, before, kin, a, r) ==> IsNew(env, site, before', kin', a, r)
  {
    hide Due, SameKin, Given;
    if IsNew(env, site, before, kin, a, r) {
      forall c | c in r ensures Fresh(env, site, before', kin', a, c, r[c]) {
        FreshSame(env, site, own, before, kin, before', kin', a, c, r[c]);
      }
    }
  }

  lemma FreshSame(env: Env, site: Site, own: set<nat>, before: Temps, kin: Temps, before': Temps, kin': Temps, a: nat,
                  c: Col, v: Value)
    requires own <= before.Keys && a in own && SamePayload(before, before', a) && SameKin(site, own, before, kin, kin')
    ensures Fresh(env, site, before, kin, a, c, v) ==> Fresh(env, site, before', kin', a, c, v)
  {
    hide Due, SameKin, Given;
    if Given(env, site, c) && Due(env, site, before, kin, a, c, v) {
      DueSame(env, site, own, before, kin, before', kin', a, c, v);
    }
  }

  lemma OverwrittenSame(env: Env, site: Site, own: set<nat>, before: Temps, kin: Temps, before': Temps, kin': Temps,
                        a: nat, old_: Row, r: Row)
    requires own <= before.Keys && a in own && SamePayload(before, before', a) && SameKin(site, own, before, kin, kin')
    ensures IsOverwritten(env, site, before, kin, a, old_, r) ==> IsOverwritten(env, site, before', kin', a, old_, r)
  {
    hide Fresh, SameKin, Given, Changed;
    if IsOverwritten(env, site, before, kin, a, old_, r) {
      forall c | c in r
        ensures Fresh(env, site, before, kin, a, c, r[c]) ==> Fresh(env, site, before', kin', a, c, r[c])
      {
        FreshSame(env, site, own, before, kin, before', kin', a, c, r[c]);
      }
    }
  }

  lemma UpdatedSame(env: Env, site: Site, own: set<nat>, before: Temps, kin: Temps, before': Temps, kin': Temps, a: nat,
                    old_: Row, r: Row)
    requires own <= before.Keys && a in own && SamePayload(before, before', a) && SameKin(site, own, before, kin, kin')
    ensures IsUpdated(env, site, before, kin, a, old_, r) ==> IsUpdated(env, site, before', kin', a, old_, r)
  {
    hide Due, SameKin, Changed, Joined;
    if IsUpdated(env, site, before, kin, a, old_, r) {
      forall c | c in r && Due(env, site, before, kin, a, c, r[c]) ensures Due(env, site, before', kin', a, c, r[c]) {
        DueSame(env, site, own, before, kin, before', kin', a, c, r[c]);
      }
    }
  }

  /** The payload and the keys beside it are the same for all the rows of a node. */
  ghost predicate SameRun(site: Site, own: set<nat>, before: Temps, kin: Temps, before': Temps, kin': Temps) {
    own <= before.Keys && own <= before'.Keys && SameKin(site, own, before, kin, kin')
    && forall a :: a in own ==> SamePayload(before, before', a)
  }

  lemma InsertsSame(env: Env, site: Site, ids: map<nat, Value>, before: Temps, kin: Temps, before': Temps, kin': Temps,
                    t0: Table, t1: Table)
    requires SameRun(site, ids.Keys, before, kin, before', kin') && Inserts(env, site, before, kin, ids, t0, t1)
    ensures Inserts(env, site, before', kin', ids, t0, t1)
  {
    hide IsNew, SameKin, SamePayload, Named, Apart, SameAt, Among;
    forall a | a in ids ensures IsNew(env, site, before', kin', a, t1[ids[a]]) {
      NewSame(env, site, ids.Keys, before, kin, before', kin', a, t1[ids[a]]);
    }
  }

  lemma MissingSame(env: Env, site: Site, ids: map<nat, Value>, before: Temps, kin: Temps, before': Temps, kin': Temps,
                    t0: Table, t1: Table)
    requires SameRun(site, ids.Keys, before, kin, before', kin')
             && InsertsMissing(env, site, before, kin, ids, t0, t1)
    ensures InsertsMissing(env, site, before', kin', ids, t0, t1)
  {
    hide IsNew, SameKin, SamePayload, Named, Apart, SameAt, Among;
    forall k | k !in t0 && Among(ids, k)
      ensures k in t1 && exists a :: a in ids && ids[a] == k && IsNew(env, site, before', kin', a, t1[k])
    {
      var a :| a in ids && ids[a] == k && IsNew(env, site, before, kin, a, t1[k]);
      NewSame(env, site, ids.Keys, before, kin, before', kin', a, t1[k]);
    }
  }

  lemma UpsertsSame(env: Env, site: Site, ids: map<nat, Value>, before: Temps, kin: Temps, before': Temps, kin': Temps,
                    t0: Table, t1: Table)
    requires SameRun(site, ids.Keys, before, kin, before', kin') && UpsertsAll(env, site, before, kin, ids, t0, t1)
    ensures UpsertsAll(env, site, before', kin', ids, t0, t1)
  {
    hide IsNew, IsOverwritten, SameKin, SamePayload, Named, Apart, SameAt, Among;
    forall a | a in ids
      ensures if ids[a] in t0 then IsOverwritten(env, site, before', kin', a, t0[ids[a]], t1[ids[a]])
              else IsNew(env, site, before', kin', a, t1[ids[a]])
    {
      NewSame(env, site, ids.Keys, before, kin, before', kin', a, t1[ids[a]]);
      if ids[a] in t0 {
        OverwrittenSame(env, site, ids.Keys, before, kin, before', kin', a, t0[ids[a]], t1[ids[a]]);
      }
    }
  }

  lemma UpdatesSame(env: Env, site: Site, ids: map<nat, Value>, before: Temps, kin: Temps, before': Temps, kin': Temps,
                    t0: Table, t1: Table)
    requires SameRun(site, ids.Keys, before, kin, before', kin') && UpdatesFound(env, site, before, kin, ids, t0, t1)
    ensures UpdatesFound(env, site, before', kin', ids, t0, t1)
  {
    hide IsUpdated, SameKin, SamePayload, SameAt, Among;
    forall k | k in t0 && Among(ids, k)
      ensures k in t1 && exists a :: a in ids && ids[a] == k && IsUpdated(env, site, before', kin', a, t0[k], t1[k])
    {
      var a :| a in ids && ids[a] == k && IsUpdated(env, site, before, kin, a, t0[k], t1[k]);
      UpdatedSame(env, site, ids.Keys, before, kin, before', kin', a, t0[k], t1[k]);
    }
  }

  lemma TableSame(env: Env, site: Site, ids: map<nat, Value>, before: Temps, kin: Temps, before': Temps, kin': Temps,
                  t0: Table, t1: Table)
    requires SameRun(site, ids.Keys, before, kin, before', kin') && ids.Keys <= before.Keys && ids.Keys <= before'.Keys
    requires TableAfter(env, site, before, kin, ids, t0, t1)
    ensures TableAfter(env, site, before', kin', ids, t0, t1)
  {
    hide SameRun, Inserts, InsertsMissing, UpsertsAll, UpdatesFound;
    match site.n.mode
    case INSERT => InsertsSame(env, site, ids, before, kin, before', kin', t0, t1);
    case MERGE_NEW => MissingSame(env, site, ids, before, kin, before', kin', t0, t1);
    case UPSERT => UpsertsSame(env, site, ids, before, kin, before', kin', t0, t1);
    case MERGE => UpsertsSame(env, site, ids, before, kin, before', kin', t0, t1);
    case UPDATE_EXISTING => UpdatesSame(env, site, ids, before, kin, before', kin', t0, t1);
    case MERGE_UPDATE => UpdatesSame(env, site, ids, before, kin, before', kin', t0, t1);
    case _ =>
  }

  lemma KeysSame(env: Env, site: Site, ids: map<nat, Value>, before: Temps, after: Temps, before': Temps, after': Temps,
                 t0: Table, t1: Table)
    requires ids.Keys <= before.Keys && ids.Keys <= before'.Keys && ids.Keys <= after.Keys && ids.Keys <= after'.Keys
    requires forall a :: a in ids ==> before'[a].vals == before[a].vals && after'[a].vals == after[a].vals
    requires KeysAfter(env, site, before, after, ids, t0, t1)
    ensures KeysAfter(env, site, before', after', ids, t0, t1)
  {
    hide HoldsKeys, Recovers, Finds;
  }

  /** An outcome stands while payload rows, their keys, and those of their parents and children stay as they are. */
  lemma OutcomeSame(env: Env, site: Site, ids: map<nat, Value>, before: Temps, kin: Temps, after: Temps, before': Temps,
                    kin': Temps, after': Temps, t0: Table, t1: Table)
    requires Outcome(env, site, before, kin, after, ids, t0, t1) && SameKin(site, ids.Keys, before, kin, kin')
    requires before'.Keys == after'.Keys && SameRows(before, before')
    requires forall a :: IsOwn(before, site.n, a) ==>
                           SamePayload(before, before', a) && a in after' && after'[a].vals == after[a].vals
    ensures Outcome(env, site, before', kin', after', ids, t0, t1)
  {
    hide TableAfter, KeysAfter, SameKin, Due;
    assert forall a :: a in ids <==> IsOwn(before', site.n, a) by {
      forall a ensures IsOwn(before, site.n, a) <==> IsOwn(before', site.n, a) {
        if a in before {
          assert before'[a] == before[a].(vals := before'[a].vals);
        }
      }
    }
    forall a | a in ids ensures Due(env, site, before', kin', a, env.ident(site.n.rel), ids[a]) {
      DueSame(env, site, ids.Keys, before, kin, before', kin', a, env.ident(site.n.rel), ids[a]);
    }
    TableSame(env, site, ids, before, kin, before', kin', t0, t1);
    KeysSame(env, site, ids, before, after, before', after', t0, t1);
  }

  /** The temp rows of a node are the same, and still its own. */
  ghost predicate NodeSame(a: Temps, b: Temps, id: nat) {
    forall i :: (i in a && a[i].node == id <==> i in b && b[i].node == id)
                && (i in a && a[i].node == id ==> b[i] == a[i])
  }

  lemma NodeSameTwice(a: Temps, b: Temps, c: Temps, id: nat)
    requires NodeSame(a, b, id) && NodeSame(b, c, id)
    ensures NodeSame(a, c, id)
  {
    forall i ensures (i in a && a[i].node == id <==> i in c && c[i].node == id)
                     && (i in a && a[i].node == id ==> c[i] == a[i])
    {
      assert i in a && a[i].node == id <==> i in b && b[i].node == id;
    }
  }

  /** Statements of other nodes leave a node's temp rows the same. */
  lemma OthersLeave(env: Env, s: State, tn: Nodes, plan: seq<Site>, id: nat)
    requires AllOwn(tn, s.temps, Writes(plan)) && Exec(env, s, tn, Writes(plan)).Some?
    requires forall d :: d in plan ==> d.n.id != id
    ensures SameRows(s.temps, Exec(env, s, tn, Writes(plan)).value.temps)
    ensures NodeSame(s.temps, Exec(env, s, tn, Writes(plan)).value.temps, id)
  {
    hide Exec, Owns;
    ExecFrame(env, s, tn, Writes(plan));
    var b := Exec(env, s, tn, Writes(plan)).value.temps;
    forall st | st in Writes(plan) ensures st.site.n.id != id {
      assert st.site in plan;
    }
    forall i ensures (i in s.temps && s.temps[i].node == id <==> i in b && b[i].node == id)
                     && (i in s.temps && s.temps[i].node == id ==> b[i] == s.temps[i])
    {
      if i in s.temps {
        assert b[i] == s.temps[i].(vals := b[i].vals);
      }
    }
  }

  lemma OwnLeaves(env: Env, s: State, tn: Nodes, site: Site, id: nat)
    requires Owns(tn, s.temps, site.n) && Run(env, s, tn, site).Some? && id != site.n.id
    ensures SameRows(s.temps, Run(env, s, tn, site).value.temps)
    ensures NodeSame(s.temps, Run(env, s, tn, site).value.temps, id)
  {
    hide Run, Owns;
    RunFrame(env, s, tn, site);
    var b := Run(env, s, tn, site).value.temps;
    forall i ensures (i in s.temps && s.temps[i].node == id <==> i in b && b[i].node == id)
                     && (i in s.temps && s.temps[i].node == id ==> b[i] == s.temps[i])
    {
      if i in s.temps {
        assert b[i] == s.temps[i].(vals := b[i].vals);
      }
    }
  }

  /** The nodes whose keys a statement reads. */
  ghost predicate IsKin(site: Site, id: nat) {
    (site.link.In? && id == site.link.parent.id) || exists k :: k in site.n.outgoing && k.id == id
  }

  /** Keys are settled before they are read: no later statement of phase 1 writes the node they come from. */
  lemma KinSettled(t: Node, pop: set<nat>, site: Site, j: nat, from: nat, id: nat)
    requires Numbered(t, from) && Closed(t, Root, pop) && j < |Plan1(t, Root, pop)| && Plan1(t, Root, pop)[j] == site
    requires IsKin(site, id) && !OutgoingRead(site)
    ensures forall d :: d in Plan1(t, Root, pop)[j..] ==> d.n.id != id
  {
    hide Plan1, Numbered, SiteIn, Closed;
    Plan1Sites(t, Root, pop);
    Plan1Distinct(t, Root, pop, from);
    if site.link.In? && id == site.link.parent.id {
      ParentSettled(t, pop, site, j, from);
    } else {
      var k :| k in site.n.outgoing && k.id == id;
      OutgoingSite(t, Root, site, k);
      if id in pop {
        ChildSettled(t, pop, site, j, k);
      } else {
        forall d | d in Plan1(t, Root, pop)[j..] ensures d.n.id != id {
          assert d in Plan1(t, Root, pop);
        }
      }
    }
  }

  lemma ChildSettled(t: Node, pop: set<nat>, site: Site, j: nat, k: Node)
    requires DistinctIds(Plan1(t, Root, pop)) && j < |Plan1(t, Root, pop)| && Plan1(t, Root, pop)[j] == site
    requires Closed(t, Root, pop) && k.id in pop && SiteIn(t, Root, Site(k, Out(site.n)))
    ensures forall d :: d in Plan1(t, Root, pop)[j..] ==> d.n.id != k.id
  {
    hide Plan1, SiteIn, Closed;
    var plan, child := Plan1(t, Root, pop), Site(k, Out(site.n));
    Plan1Has(t, Root, pop, child);
    KeyOrder(t, Root, pop, child);
    var i, m :| 0 <= i < |plan| && 0 <= m < |plan| && plan[i].n == site.n && plan[m] == child && m < i;
    assert i == j;
    forall d | d in plan[j..] ensures d.n.id != k.id {
      var x :| 0 <= x < |plan[j..]| && plan[j..][x] == d;
      assert plan[j + x] == d && m < j + x;
    }
  }

  /** Temp rows that are the same give the same keys. */
  lemma KinSame(site: Site, own: set<nat>, before: Temps, kin: Temps, kin': Temps)
    requires own <= before.Keys && SameRows(before, kin) && SameRows(kin, kin')
    requires forall id :: IsKin(site, id) ==> NodeSame(kin, kin', id)
    requires site.link.In? ==> forall a :: a in own ==> PointsAt(before, a, site.link.parent)
    ensures SameKin(site, own, before, kin, kin')
  {
    if site.link.In? {
      assert IsKin(site, site.link.parent.id);
      forall a | a in own ensures kin'[before[a].parent.value].vals == kin[before[a].parent.value].vals {
        var p := before[a].parent.value;
        assert PointsAt(before, a, site.link.parent) && kin[p] == before[p].(vals := kin[p].vals);
      }
    }
    forall k, a, b | k in site.n.outgoing && a in own
      ensures (ChildRow(kin, k, a, b) <==> ChildRow(kin', k, a, b))
              && (ChildRow(kin, k, a, b) ==> kin'[b].vals == kin[b].vals)
    {
      assert IsKin(site, k.id);
      assert NodeSame(kin, kin', k.id);
    }
  }

  /** Phase 1 around the one statement that writes a relation. */
  lemma PopulatedOutcome(env: Env, t: Node, s0: State, tn: Nodes, pop: set<nat>, site: Site, from: nat, j: nat)
    returns (ids: map<nat, Value>)
    requires Numbered(t, from) && Ready(t, s0.temps, tn, pop) && forall a :: a in s0.temps ==> s0.temps[a].rowId == a
    requires SiteIn(t, Root, site) && OnlyWriter(t, site) && Keyed(TableOf(s0.db, site.n.rel), env.ident(site.n.rel))
    requires Exec(env, s0, tn, Writes(Plan1(t, Root, pop))).Some? && j < |Plan1(t, Root, pop)|
             && Plan1(t, Root, pop)[j] == site
    ensures var s1 := Exec(env, s0, tn, Writes(Plan1(t, Root, pop))).value;
            && SameRows(s0.temps, s1.temps)
            && Outcome(env, site, s0.temps, s1.temps, s1.temps, ids, TableOf(s0.db, site.n.rel),
                       TableOf(s1.db, site.n.rel))
  {
    hide SiteIn, Plan1, Numbered, Owns, Exec, TableOf, Keyed, Writes, OnlyWriter, Ready, SameRows, Deletes, Run,
         Outcome, Refuses, Closed, IsKin, NodeSame, SameKin, OutgoingRead, Joinable, ChildrenOwned, Identified;
    var plan := Plan1(t, Root, pop);
    var first, last := plan[..j], plan[j + 1..];
    Plan1Sites(t, Root, pop);
    Plan1Distinct(t, Root, pop, from);
    OtherIds(plan, j);
    AroundWrite(env, s0, tn, plan, j);
    var sA := Exec(env, s0, tn, Writes(first)).value;
    var sB := Run(env, sA, tn, site).value;
    var s1 := Exec(env, sB, tn, Writes(last)).value;
    AsidePlan(t, first, site, from);
    AsidePlan(t, last, site, from);
    PlanOwned(t, s0.temps, tn, pop, first);
    AsideRun(env, s0, tn, Writes(first), site);
    OthersLeave(env, s0, tn, first, site.n.id);
    ReadyFrame(t, s0.temps, sA.temps, tn, pop);
    Joins(t, s0.temps, sA.temps, tn, pop, site, from);
    ChildrenReady(env, t, sA, tn, pop, site);
    ids := StatementOutcome(env, sA, tn, site);
    OwnedSite(t, sA.temps, tn, pop, site);
    RunFrame(env, sA, tn, site);
    ReadyFrame(t, sA.temps, sB.temps, tn, pop);
    PlanOwned(t, sB.temps, tn, pop, last);
    AsideRun(env, sB, tn, Writes(last), site);
    OthersLeave(env, sB, tn, last, site.n.id);
    SameTwice(s0.temps, sA.temps, sB.temps);
    SameTwice(s0.temps, sB.temps, s1.temps);
    SameTwice(sA.temps, sB.temps, s1.temps);
    ReadyClosed(t, s0.temps, tn, pop);
    forall id | IsKin(site, id) ensures NodeSame(sA.temps, s1.temps, id) {
      KinSettled(t, pop, site, j, from, id);
      assert site == plan[j..][0] && last == plan[j..][1..];
      OwnLeaves(env, sA, tn, site, id);
      OthersLeave(env, sB, tn, last, id);
      NodeSameTwice(sA.temps, sB.temps, s1.temps, id);
    }
    PointsAtAll(t, sA.temps, tn, pop, site);
    Settle(env, site, ids, s0.temps, sA.temps, sB.temps, s1.temps, TableOf(s0.db, site.n.rel),
           TableOf(sB.db, site.n.rel));
  }

  /** The outcome of the statement, at the end of phase 1. */
  lemma Settle(env: Env, site: Site, ids: map<nat, Value>, temps0: Temps, tempsA: Temps, tempsB: Temps, temps1: Temps,
               t0: Table, t1: Table)
    requires Outcome(env, site, tempsA, tempsA, tempsB, ids, t0, t1)
    requires SameRows(temps0, tempsA) && SameRows(tempsA, tempsB) && SameRows(tempsA, temps1)
             && SameRows(tempsB, temps1)
    requires NodeSame(temps0, tempsA, site.n.id) && NodeSame(tempsB, temps1, site.n.id)
    requires forall id :: IsKin(site, id) ==> NodeSame(tempsA, temps1, id)
    requires site.link.In? ==> forall a :: IsOwn(tempsA, site.n, a) ==> PointsAt(tempsA, a, site.link.parent)
    ensures Outcome(env, site, temps0, temps1, temps1, ids, t0, t1)
  {
    hide TableAfter, KeysAfter, Due, IsKin, SameKin;
    assert ids.Keys <= tempsA.Keys && forall a :: a in ids <==> IsOwn(tempsA, site.n, a);
    SameSelfRows(tempsA);
    KinSame(site, ids.Keys, tempsA, tempsA, temps1);
    SameBack(temps0, tempsA);
    forall a | IsOwn(tempsA, site.n, a)
      ensures SamePayload(tempsA, temps0, a) && a in temps1 && temps1[a].vals == tempsB[a].vals
    {
      assert tempsB[a] == tempsA[a].(vals := tempsB[a].vals);
    }
    OutcomeSame(env, site, ids, tempsA, tempsA, tempsB, temps0, temps1, temps1, t0, t1);
  }

  lemma SameSelfRows(a: Temps)
    ensures SameRows(a, a)
  {
  }

  lemma SameBack(a: Temps, b: Temps)
    requires SameRows(a, b)
    ensures SameRows(b, a)
  {
    forall i | i in b ensures a[i] == b[i].(vals := a[i].vals) {
      assert b[i] == a[i].(vals := b[i].vals);
    }
  }

  lemma PointsAtAll(t: Node, temps: Temps, tn: Nodes, pop: set<nat>, site: Site)
    requires Ready(t, temps, tn, pop) && SiteIn(t, Root, site)
    ensures site.link.In? ==> forall a :: IsOwn(temps, site.n, a) ==> PointsAt(temps, a, site.link.parent)
  {
    hide SiteIn, Owns;
  }

  lemma OwnedSite(t: Node, temps: Temps, tn: Nodes, pop: set<nat>, site: Site)
    requires Ready(t, temps, tn, pop) && SiteIn(t, Root, site)
    ensures Owns(tn, temps, site.n)
  {
    hide SiteIn, Owns;
  }

  /** A statement that runs reads only children that are written, whose temp rows are their own. */
  lemma ChildrenReady(env: Env, t: Node, s: State, tn: Nodes, pop: set<nat>, site: Site)
    requires Ready(t, s.temps, tn, pop) && SiteIn(t, Root, site) && Run(env, s, tn, site).Some?
    ensures ChildrenOwned(s.temps, tn, site) && !OutgoingRead(site)
  {
    hide SiteIn, Owns, Ready, RunInsert, RunMergeNew, RunUpsert, RunUpdate;
    ReadIff(site);
    forall k | k in site.n.outgoing ensures Owns(tn, s.temps, k) {
      OutgoingSite(t, Root, site, k);
      OwnedSite(t, s.temps, tn, pop, Site(k, Out(site.n)));
    }
  }

  // ---- both phases ------------------------------------------------------------------------------------------------

  /** The modes that delete what the payload does not mention. */
  predicate Erases(m: Mode) {
    m == MERGE || m == MERGE_NEW || m == MERGE_UPDATE || m == DELETE_ONLY
  }

  /** A row phase 2 removes: under a parent of the payload, with an identity no payload row holds. */
  ghost predicate Erased(env: Env, temps: Temps, site: Site, k: Value, r: Row) {
    && (site.link.Root?
        || exists p :: p in temps && temps[p].node == site.link.parent.id
                       && Get(temps[p].vals, site.n.distant) == Get(r, site.n.local) != Null)
    && (k == Null || forall a :: IsOwn(temps, site.n, a) ==> Get(temps[a].vals, env.ident(site.n.rel)) != k)
  }

  /** What phase 2 leaves of a table. */
  ghost predicate Left(env: Env, site: Site, pop: set<nat>, temps: Temps, t1: Table, t2: Table) {
    forall k :: LeftAt(env, site, pop, temps, t1, t2, k)
  }

  ghost predicate LeftAt(env: Env, site: Site, pop: set<nat>, temps: Temps, t1: Table, t2: Table, k: Value) {
    if k in t1 && Erases(site.n.mode) && (site.link.Root? || site.link.parent.id in pop)
       && Erased(env, temps, site, k, t1[k])
    then k !in t2 else SameAt(t1, t2, k)
  }

  lemma ErasedIff(env: Env, temps: Temps, site: Site, k: Value, r: Row)
    ensures Erased(env, temps, site, k, r) <==> !Spares(env, temps, site, k, r)
  {
    assert Covered(temps, site, r)
           <==> site.link.Root?
                || exists p :: p in temps && temps[p].node == site.link.parent.id
                               && Get(temps[p].vals, site.n.distant) == Get(r, site.n.local) != Null;
  }

  lemma DeletesOf(m: Mode)
    ensures HasDelete(m) <==> Erases(m)
  {
  }

  /** Of the deletes of a run only the node's own is on its relation. */
  lemma OwnDelete(env: Env, t: Node, temps: Temps, pop: set<nat>, site: Site, k: Value, r: Row)
    requires SiteIn(t, Root, site) && OnlyWriter(t, site) && Closed(t, Root, pop)
    ensures AllSpare(env, temps, Plan2(t, Root, pop), site.n.rel, k, r)
            <==> !(Erases(site.n.mode) && (site.link.Root? || site.link.parent.id in pop)
                   && Erased(env, temps, site, k, r))
  {
    hide SiteIn, Plan2, Closed, Erased, Spares;
    var plan := Plan2(t, Root, pop);
    Plan2Sites(t, Root, pop);
    Plan2Modes(t, Root, pop);
    DeletesOf(site.n.mode);
    ErasedIff(env, temps, site, k, r);
    if HasDelete(site.n.mode) && (site.link.Root? || site.link.parent.id in pop) {
      Plan2Has(t, Root, pop, site);
    }
    assert forall d :: d in plan && d.n.rel == site.n.rel ==> d == site;
  }

  /**
   Every write mode, over both phases, for a relation one written node uses: phase 1 leaves the table and the keys the
   mode promises, phase 2 removes exactly the rows the payload does not mention, if the mode does.
   */
  lemma ModeOutcome(env: Env, t: Node, s0: State, tn: Nodes, pop: set<nat>, site: Site, from: nat)
    returns (ids: map<nat, Value>, t1: Table)
    requires Numbered(t, from) && Ready(t, s0.temps, tn, pop) && forall a :: a in s0.temps ==> s0.temps[a].rowId == a
    requires SiteIn(t, Root, site) && OnlyWriter(t, site) && Keyed(TableOf(s0.db, site.n.rel), env.ident(site.n.rel))
    requires Exec(env, s0, tn, Queue(t, pop)).Some?
    ensures var s2 := Exec(env, s0, tn, Queue(t, pop)).value;
            && SameRows(s0.temps, s2.temps) && Keyed(t1, env.ident(site.n.rel))
            && Outcome(env, site, s0.temps, s2.temps, s2.temps, ids, TableOf(s0.db, site.n.rel), t1)
            && Left(env, site, pop, s2.temps, t1, TableOf(s2.db, site.n.rel))
  {
    hide SiteIn, Plan1, Plan2, Numbered, Owns, Exec, TableOf, Keyed, Writes, OnlyWriter, Ready, SameRows, Deletes,
         Outcome, Closed, Erased, AllSpare;
    ExecSplit(env, s0, tn, Writes(Plan1(t, Root, pop)), Deletes(Plan2(t, Root, pop)));
    var s1 := Exec(env, s0, tn, Writes(Plan1(t, Root, pop))).value;
    ReadyClosed(t, s0.temps, tn, pop);
    t1 := TableOf(s1.db, site.n.rel);
    WritesGrow(env, s0, tn, Plan1(t, Root, pop), site.n.rel);
    if site.n.id in pop {
      Plan1Has(t, Root, pop, site);
      var j :| 0 <= j < |Plan1(t, Root, pop)| && Plan1(t, Root, pop)[j] == site;
      ids := PopulatedOutcome(env, t, s0, tn, pop, site, from, j);
    } else {
      ids := map[];
      NotPopulated(env, t, s0, tn, pop, site, from);
    }
    var s2 := Exec(env, s0, tn, Queue(t, pop)).value;
    forall k ensures LeftAt(env, site, pop, s2.temps, t1, TableOf(s2.db, site.n.rel), k) {
      QueueSplit(env, t, s0, tn, pop, site.n.rel, k);
      if k in t1 {
        OwnDelete(env, t, s1.temps, pop, site, k, t1[k]);
      }
    }
    QueueSplit(env, t, s0, tn, pop, site.n.rel, Null);
  }

  /** A node without rows writes nothing. */
  lemma NotPopulated(env: Env, t: Node, s0: State, tn: Nodes, pop: set<nat>, site: Site, from: nat)
    requires Numbered(t, from) && Ready(t, s0.temps, tn, pop) && SiteIn(t, Root, site) && OnlyWriter(t, site)
    requires site.n.id !in pop && Exec(env, s0, tn, Writes(Plan1(t, Root, pop))).Some?
    ensures var s1 := Exec(env, s0, tn, Writes(Plan1(t, Root, pop))).value;
            && SameRows(s0.temps, s1.temps)
            && Outcome(env, site, s0.temps, s1.temps, s1.temps, map[], TableOf(s0.db, site.n.rel),
                       TableOf(s1.db, site.n.rel))
  {
    hide SiteIn, Plan1, Numbered, Owns, Exec, TableOf, Writes, OnlyWriter, Deletes, Outcome;
    var plan := Plan1(t, Root, pop);
    Plan1Sites(t, Root, pop);
    AsidePlan(t, plan, site, from);
    PlanOwned(t, s0.temps, tn, pop, plan);
    AsideRun(env, s0, tn, Writes(plan), site);
    var s1 := Exec(env, s0, tn, Writes(plan)).value;
    NothingWritten(env, site, s0.temps, s1.temps, TableOf(s0.db, site.n.rel));
  }

  lemma NothingWritten(env: Env, site: Site, before: Temps, after: Temps, t0: Table)
    requires SameRows(before, after) && forall a :: !IsOwn(before, site.n, a)
    ensures Outcome(env, site, before, after, after, map[], t0, t0)
  {
  }
}
