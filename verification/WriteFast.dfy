/**
 The fast path of query/write_fast.go: a flat write whose rows go in as one parameter and whose response is what
 the statement returns. The general path keeps temp rows with the keys written back, and answers at the end of the
 request, from a read-back scoped by identity (query/sql.go). Both leave the same table; this module says exactly when
 they give the same response.
 */
module WriteFast {
  import opened Wrappers
  import opened WriteTree
  import opened WriteStatements
  import opened WriteMerge
  import opened WriteOutcome
  import opened WriteShared
  import opened WriteAnswer

  // ---- which writes are eligible -----------------------------------------------------------------------

  /** A node of its own: no children, nothing embedded. */
  predicate Flat(n: Node) {
    n.outgoing == [] && n.incoming == [] && n.embeds == []
    && (n.mode == INSERT || n.mode == UPSERT || n.mode == UPDATE_EXISTING)
  }

  // ---- the rows of both paths --------------------------------------------------------------------------------

  /** The rows of a flat payload differ only by their ids, wherever the numbering starts. */
  lemma {:induction false} FlatRows(env: Env, n: Node, items: seq<Json>, a: nat, b: nat)
    requires Flat(n)
    ensures Denormalize(env, n, items, a).Rows? <==> Denormalize(env, n, items, b).Rows?
    ensures Denormalize(env, n, items, a).Rows? ==>
              SameFlat(n, Denormalize(env, n, items, a).rows, Denormalize(env, n, items, b).rows, a, b)
    decreases |items|
  {
    hide Fill, Walk;
    if items != [] {
      FlatOne(env, n, items[0], a);
      FlatOne(env, n, items[0], b);
      FlatRows(env, n, items[1..], a + 1, b + 1);
    }
  }

  /** An object of a flat payload is one row. */
  lemma FlatOne(env: Env, n: Node, raw: Json, next: nat)
    requires Flat(n)
    ensures var vals := Fill(env, n.rel, n.extractors, raw);
            Walk(env, n, raw, None, next)
            == if raw.JObject? && vals.Some? then Rows([TempRow(next, n.id, n.rel, None, vals.value, vals.value.Keys)])
            else Refused
  {
    hide Fill;
    assert WalkEmbeds(env, n, n.embeds, raw, next, next + 1) == Rows([]);
  }

  ghost predicate SameFlat(n: Node, x: seq<TempRow>, y: seq<TempRow>, a: nat, b: nat) {
    && |x| == |y|
    && (forall i :: 0 <= i < |x| ==> x[i] == y[i].(rowId := a + i) && y[i].rowId == b + i)
    && (forall i :: 0 <= i < |x| ==> IsRowOf(x[i], n) && x[i].parent.None? && x[i].mask == x[i].vals.Keys)
  }

  /** The rows of the parameter, numbered from one: the ordinality of the array. */
  function FastTemps(rows: seq<TempRow>): Temps {
    map a | a in Ordinals(|rows|) :: rows[a - 1].(rowId := a)
  }

  function Ordinals(count: nat): (s: set<nat>)
    ensures forall a :: a in s <==> 1 <= a <= count
  {
    if count == 0 then {} else Ordinals(count - 1) + {count}
  }

  /** The fast path numbers its rows from one; row for row, the database generates the same values. */
  function FastEnv(env: Env, base: nat): Env {
    env.(gen := (r: nat, c: Col) => if r == 0 then Null else env.gen(base + (r - 1), c))
  }

  function FastNodes(n: Node): Nodes {
    map[n.rel := {n.id}]
  }

  // ---- the responses -----------------------------------------------------------------------------------------------

  /** The read-back: the rows of the relation joined to the node's root temp rows by identity, in payload order. */
  ghost function ReadBack(env: Env, s: State, n: Node, lo: nat, hi: nat): seq<Row>
    requires lo <= hi
    decreases hi - lo
  {
    if lo == hi then []
    else ReadBack(env, s, n, lo, hi - 1) + ReadOne(env, s, n, hi - 1)
  }

  ghost function ReadOne(env: Env, s: State, n: Node, a: nat): seq<Row> {
    var t := TableOf(s.db, n.rel);
    if a in s.temps && s.temps[a].rel == n.rel && s.temps[a].node == n.id && s.temps[a].parent.None?
       && Get(s.temps[a].vals, env.ident(n.rel)) in t
    then [t[Get(s.temps[a].vals, env.ident(n.rel))]] else []
  }

  /** What a fast statement returns for its first `count` rows, taken in row order. */
  ghost function Returned(env: Env, t0: Table, t: Table, n: Node, res: map<nat, Row>, count: nat): seq<Row> {
    if count == 0 then []
    else Returned(env, t0, t, n, res, count - 1) + ReturnedOne(env, t0, t, n, res, count)
  }

  ghost function ReturnedOne(env: Env, t0: Table, t: Table, n: Node, res: map<nat, Row>, a: nat): seq<Row> {
    if a !in res then []
    else
      var k := Get(res[a], env.ident(n.rel));
      if k in t && (n.mode == UPDATE_EXISTING ==> k in t0) then [t[k]] else []
  }

  /** The table a write leaves, and its response: the fields of each row answered. */
  datatype Written = Written(table: Table, response: seq<seq<Value>>)

  function Columns(env: Env, n: Node): set<Col> {
    var site := Site(n, Root);
    if n.mode == UPDATE_EXISTING then SetColumns(env, site) + {env.ident(n.rel)} else InsertColumns(env, site)
  }

  /** compileOrderBy over returned rows: the row ids order only an update-existing. */
  function FastOrder(q: Query, mode: Mode): Order {
    if q.orderBy != [] then Explicit(q.orderBy) else if mode == UPDATE_EXISTING then ByRow else Unordered
  }

  /** compileOrderBy over the temp rows. */
  function GeneralOrder(q: Query): Order {
    if q.orderBy != [] then Explicit(q.orderBy) else ByRow
  }

  /**
   executeFast: nothing for no rows, else one statement over the parameter's rows that answers from what it returns.
   */
  ghost function FastWrite(env: Env, db: map<Rel, Table>, n: Node, q: Query, w: World, seen: Sight,
                           rows: seq<TempRow>): Option<Written> {
    if rows == [] then Some(Written(TableOf(db, n.rel), []))
    else
      var s := Run(env, State(db, FastTemps(rows)), FastNodes(n), Site(n, Root));
      if s.None? then None
      else
        var t := TableOf(s.value.db, n.rel);
        var res := Resolved(env, FastTemps(rows), FastNodes(n), Site(n, Root), Columns(env, n));
        var answer := Respond(q, FastOrder(q, n.mode), w, seen, Returned(env, TableOf(db, n.rel), t, n, res, |rows|));
        if answer.None? then None else Some(Written(t, answer.value))
  }

  /**
   The general path for the same write: its rows in the temp table, the statement, and a read-back of the state the
   whole request ends in.
   */
  ghost function GeneralWrite(env: Env, s: State, tn: Nodes, n: Node, q: Query, w: World, seen: Sight,
                              rows: seq<TempRow>, hi: nat, end: State): Option<Written> {
    var r := GeneralRun(env, s, tn, n, rows);
    if r.None? then None
    else
      var answer := Respond(q, GeneralOrder(q), w, seen, ReadBack(env, end, n, 0, hi));
      if answer.None? then None else Some(Written(TableOf(r.value.db, n.rel), answer.value))
  }

  /** Without rows the node is not populated and has no statement. */
  ghost function GeneralRun(env: Env, s: State, tn: Nodes, n: Node, rows: seq<TempRow>): Option<State> {
    if rows == [] then Some(s) else Run(env, s, tn, Site(n, Root))
  }

  /** The database refuses the rows: one has no identity, two have the same, or an insert meets a row of the table. */
  ghost predicate Clash(env: Env, t: Table, n: Node, res: map<nat, Row>) {
    var ident := env.ident(n.rel);
    n.mode != UPDATE_EXISTING && (!DistinctIdents(res, ident)
                                  || (n.mode == INSERT && t.Keys * Idents(res, ident) != {}))
  }

  lemma ClashIff(env: Env, s: State, tn: Nodes, n: Node)
    requires Flat(n)
    ensures Run(env, s, tn, Site(n, Root)).None?
            <==> Clash(env, TableOf(s.db, n.rel), n, Resolved(env, s.temps, tn, Site(n, Root), Columns(env, n)))
  {
    hide Resolved, UpsertTable, InsertNew, UpdateTable, DistinctIdents, Idents, WriteBack, KeyColumns, SetColumns,
         InsertColumns;
  }

  /**
   When the paths agree: the read-back is allowed, or the rows are refused, or the fast response is refused as well.
   */
  predicate Agree(q: Query, fast: Order, refused: bool, empty: bool) {
    Allowed(q, GeneralOrder(q)) || refused || (!empty && !Allowed(q, fast))
  }

  // ---- the rest of the request ------------------------------------------------------------------------------------

  /** The rest of the request leaves the temp rows of a node alone. */
  ghost predicate Keeps(r: State, end: State, n: Node) {
    && (forall a :: IsOwn(r.temps, n, a) ==> a in end.temps && end.temps[a] == r.temps[a])
    && (forall a :: IsOwn(end.temps, n, a) ==> IsOwn(r.temps, n, a))
  }

  /** A row is there under a key, with the same columns, or in neither table. */
  ghost predicate SameUnder(t: Table, t': Table, k: Value) {
    (k in t <==> k in t') && (k in t ==> Alike(t[k], t'[k]))
  }

  /** The rows under the node's keys are in the end what its own statement left. */
  ghost predicate Undisturbed(env: Env, r: State, end: State, n: Node) {
    forall a :: IsOwn(r.temps, n, a) ==>
      SameUnder(TableOf(r.db, n.rel), TableOf(end.db, n.rel), RowKey(env, r.temps, n, a))
  }

  /**
   Of the rows the where lets into the answer, the read-back finds the same columns at the end as after the statement.
   */
  ghost predicate ReadsAlike(env: Env, r: State, end: State, n: Node, hi: nat, where: Option<Expr>, w: World,
                             seen: Sight) {
    AllAlike(Passing(where, w, seen, ReadBack(env, r, n, 0, hi)), Passing(where, w, seen, ReadBack(env, end, n, 0, hi)))
  }

  lemma ReadOneAlike(env: Env, r: State, end: State, n: Node, a: nat)
    requires Keeps(r, end, n) && Undisturbed(env, r, end, n)
    ensures AllAlike(ReadOne(env, r, n, a), ReadOne(env, end, n, a))
  {
    if IsOwn(r.temps, n, a) {
      assert SameUnder(TableOf(r.db, n.rel), TableOf(end.db, n.rel), RowKey(env, r.temps, n, a));
    } else {
      assert !IsOwn(end.temps, n, a);
    }
  }

  lemma AlikeJoin(a: seq<Row>, b: seq<Row>, x: seq<Row>, y: seq<Row>)
    requires AllAlike(a, x) && AllAlike(b, y)
    ensures AllAlike(a + b, x + y)
  {
    hide Alike;
  }

  lemma {:induction false} ReadBackAlike(env: Env, r: State, end: State, n: Node, hi: nat)
    requires Keeps(r, end, n) && Undisturbed(env, r, end, n)
    ensures AllAlike(ReadBack(env, r, n, 0, hi), ReadBack(env, end, n, 0, hi))
    decreases hi
  {
    hide AllAlike, Keeps, Undisturbed, ReadOne;
    if hi == 0 {
      AlikeSelf([]);
    } else {
      ReadBackAlike(env, r, end, n, hi - 1);
      ReadOneAlike(env, r, end, n, hi - 1);
      AlikeJoin(ReadBack(env, r, n, 0, hi - 1), ReadOne(env, r, n, hi - 1), ReadBack(env, end, n, 0, hi - 1),
                ReadOne(env, end, n, hi - 1));
    }
  }

  /** The node's temp rows are roots, before hi, each with a key of its own if it has one. */
  ghost predicate KeysApart(env: Env, temps: Temps, n: Node, hi: nat) {
    && (forall a: nat :: IsOwn(temps, n, a) ==> temps[a].rel == n.rel && temps[a].parent.None? && a < hi)
    && (forall a, b :: IsOwn(temps, n, a) && IsOwn(temps, n, b)
                       && RowKey(env, temps, n, a) == RowKey(env, temps, n, b) != Null
                       ==> a == b)
  }

  /** A table as the database keeps it: one row per identity, none without one. */
  ghost predicate WellKept(env: Env, db: map<Rel, Table>, rel: Rel) {
    Keyed(TableOf(db, rel), env.ident(rel)) && Null !in TableOf(db, rel)
  }

  /** What the read-back finds is the row under the key of an own temp row. */
  lemma {:induction false} ReadMember(env: Env, s: State, n: Node, hi: nat, i: nat) returns (a: nat)
    requires WellKept(env, s.db, n.rel) && i < |ReadBack(env, s, n, 0, hi)|
    ensures a < hi && IsOwn(s.temps, n, a) && RowKey(env, s.temps, n, a) != Null
    ensures Get(ReadBack(env, s, n, 0, hi)[i], env.ident(n.rel)) == RowKey(env, s.temps, n, a)
    decreases hi
  {
    var before := ReadBack(env, s, n, 0, hi - 1);
    if i < |before| {
      a := ReadMember(env, s, n, hi - 1, i);
    } else {
      a := hi - 1;
      assert ReadBack(env, s, n, 0, hi)[i] == ReadOne(env, s, n, a)[i - |before|];
    }
  }

  /** Read-backs with the same columns found the same rows under every key. */
  lemma {:induction false} AlikeUnder(env: Env, r: State, end: State, n: Node, hi: nat, top: nat)
    requires Keeps(r, end, n) && KeysApart(env, r.temps, n, top) && hi <= top && WellKept(env, r.db, n.rel)
             && WellKept(env, end.db, n.rel)
    requires AllAlike(ReadBack(env, r, n, 0, hi), ReadBack(env, end, n, 0, hi))
    ensures forall a: nat :: IsOwn(r.temps, n, a) && a < hi ==>
                               SameUnder(TableOf(r.db, n.rel), TableOf(end.db, n.rel), RowKey(env, r.temps, n, a))
    decreases hi
  {
    hide WellKept, Alike;
    if hi > 0 {
      var a := hi - 1;
      var x, y := ReadBack(env, r, n, 0, a), ReadBack(env, end, n, 0, a);
      var u, v := ReadOne(env, r, n, a), ReadOne(env, end, n, a);
      SameEnds(env, r, end, n, hi, top);
      assert (x + u)[..|x|] == x && (y + v)[..|y|] == y;
      AlikeUnder(env, r, end, n, a, top);
      if u != [] {
        assert Alike((x + u)[|x|], (y + v)[|x|]);
      }
      if IsOwn(r.temps, n, a) {
        assert IsOwn(end.temps, n, a) && end.temps[a] == r.temps[a];
      }
    }
  }

  lemma OneKey(env: Env, s: State, n: Node, a: nat)
    requires WellKept(env, s.db, n.rel)
    ensures var u := ReadOne(env, s, n, a);
            |u| <= 1 && (u != [] ==> IsOwn(s.temps, n, a)
                                     && Get(u[0], env.ident(n.rel)) == RowKey(env, s.temps, n, a) != Null)
  {
  }

  /** Neither read-back ends in a row the other did not find. */
  lemma SameEnds(env: Env, r: State, end: State, n: Node, hi: nat, top: nat)
    requires Keeps(r, end, n) && KeysApart(env, r.temps, n, top) && 0 < hi <= top && WellKept(env, r.db, n.rel)
             && WellKept(env, end.db, n.rel)
    requires AllAlike(ReadBack(env, r, n, 0, hi), ReadBack(env, end, n, 0, hi))
    ensures |ReadOne(env, r, n, hi - 1)| == |ReadOne(env, end, n, hi - 1)|
  {
    hide WellKept, ReadOne, Alike, AllAlike, KeysApart, Keeps, IsOwn, RowKey;
    var a := hi - 1;
    var x, y := ReadBack(env, r, n, 0, a), ReadBack(env, end, n, 0, a);
    var u, v := ReadOne(env, r, n, a), ReadOne(env, end, n, a);
    OneKey(env, r, n, a);
    OneKey(env, end, n, a);
    LastAlike(x, u, y, v);
    if u == [] && v != [] {
      var b := ReadMember(env, r, n, a, |x| - 1);
      SameColumn(x[|x| - 1], v[0], env.ident(n.rel));
      OneOwner(env, r, end, n, top, b, a);
    } else if u != [] && v == [] {
      var b := ReadMember(env, end, n, a, |y| - 1);
      SameColumn(u[0], y[|y| - 1], env.ident(n.rel));
      OneOwner(env, r, end, n, top, a, b);
    }
  }

  lemma LastAlike(x: seq<Row>, u: seq<Row>, y: seq<Row>, v: seq<Row>)
    requires AllAlike(x + u, y + v) && |u| <= 1 && |v| <= 1
    ensures u == [] && v != [] ==> x != [] && Alike(x[|x| - 1], v[0])
    ensures u != [] && v == [] ==> y != [] && Alike(u[0], y[|y| - 1])
  {
    hide Alike;
    if u == [] && v != [] {
      assert (x + u)[|x| - 1] == x[|x| - 1] && (y + v)[|y|] == v[0];
    }
    if u != [] && v == [] {
      assert (x + u)[|x|] == u[0] && (y + v)[|y| - 1] == y[|y| - 1];
    }
  }

  /** One temp row before and one at the end with the same key are the same row. */
  lemma OneOwner(env: Env, r: State, end: State, n: Node, top: nat, a: nat, b: nat)
    requires Keeps(r, end, n) && KeysApart(env, r.temps, n, top) && IsOwn(r.temps, n, a) && IsOwn(end.temps, n, b)
    requires RowKey(env, r.temps, n, a) == RowKey(env, end.temps, n, b) != Null
    ensures a == b
  {
  }

  /** Every column of every row reads the same if and only if no row under the node's keys was disturbed. */
  lemma AlikeIffUndisturbed(env: Env, r: State, end: State, n: Node, hi: nat, w: World, seen: Sight)
    requires Keeps(r, end, n) && KeysApart(env, r.temps, n, hi) && WellKept(env, r.db, n.rel)
             && WellKept(env, end.db, n.rel)
    ensures ReadsAlike(env, r, end, n, hi, None, w, seen) <==> Undisturbed(env, r, end, n)
  {
    hide AllAlike, WellKept, Keeps, ReadBack, Passing, SameUnder;
    AllPass(w, seen, ReadBack(env, r, n, 0, hi));
    AllPass(w, seen, ReadBack(env, end, n, 0, hi));
    if Undisturbed(env, r, end, n) {
      ReadBackAlike(env, r, end, n, hi);
    }
    if ReadsAlike(env, r, end, n, hi, None, w, seen) {
      AlikeUnder(env, r, end, n, hi, hi);
    }
  }

  // ---- both resolve the same rows ---------------------------------------------------------------------------------

  /** The node's rows in the temp tables are the payload's, at consecutive ids. */
  ghost predicate Holds(temps: Temps, tn: Nodes, n: Node, rows: seq<TempRow>, base: nat) {
    && Owns(tn, temps, n)
    && (forall a :: a in temps && temps[a].node == n.id ==> base <= a < base + |rows|)
    && (forall i :: 0 <= i < |rows| ==> RowAt(temps, n, rows[i], base + i))
  }

  predicate RowAt(temps: Temps, n: Node, r: TempRow, a: nat) {
    a in temps && temps[a] == r && r.rowId == a && IsRowOf(r, n) && r.parent.None? && r.mask == r.vals.Keys
  }

  /** Row i of one path resolves to what row i of the other does. */
  ghost predicate Aligned(res: map<nat, Row>, fast: map<nat, Row>, base: nat, count: nat) {
    && (forall a :: a in res <==> base <= a < base + count)
    && (forall a :: a in fast <==> 1 <= a <= count)
    && (forall i: nat :: i < count ==> SameAt(res, fast, base, i))
  }

  predicate SameAt(res: map<nat, Row>, fast: map<nat, Row>, base: nat, i: nat) {
    base + i in res && 1 + i in fast && res[base + i] == fast[1 + i]
  }

  lemma ResolvedAligned(env: Env, temps: Temps, tn: Nodes, n: Node, rows: seq<TempRow>, base: nat, cols: set<Col>)
    requires Flat(n) && Holds(temps, tn, n, rows, base)
    ensures Aligned(Resolved(env, temps, tn, Site(n, Root), cols),
                    Resolved(FastEnv(env, base), FastTemps(rows), FastNodes(n), Site(n, Root), cols), base, |rows|)
  {
    hide FastEnv, ColumnValue, FastTemps, Sources;
    var site := Site(n, Root);
    var res := Resolved(env, temps, tn, site, cols);
    var fast := Resolved(FastEnv(env, base), FastTemps(rows), FastNodes(n), site, cols);
    SourcesAligned(temps, tn, n, rows, base);
    forall i: nat | i < |rows| ensures SameAt(res, fast, base, i) {
      assert RowAt(temps, n, rows[i], base + i);
      FastRow(rows, i);
      SameColumns(env, temps, tn, n, rows, base, i, cols);
    }
  }

  lemma FastRow(rows: seq<TempRow>, i: nat)
    requires i < |rows|
    ensures 1 + i in FastTemps(rows) && FastTemps(rows)[1 + i] == rows[i].(rowId := 1 + i)
  {
  }

  lemma SourcesAligned(temps: Temps, tn: Nodes, n: Node, rows: seq<TempRow>, base: nat)
    requires Holds(temps, tn, n, rows, base)
    ensures forall a :: a in Sources(temps, tn, Site(n, Root)) <==> base <= a < base + |rows|
    ensures forall a :: a in Sources(FastTemps(rows), FastNodes(n), Site(n, Root)) <==> 1 <= a <= |rows|
  {
    forall a: nat | base <= a < base + |rows| ensures a in Sources(temps, tn, Site(n, Root)) {
      assert RowAt(temps, n, rows[a - base], base + (a - base));
    }
    forall a: nat | 1 <= a <= |rows| ensures a in Sources(FastTemps(rows), FastNodes(n), Site(n, Root)) {
      assert RowAt(temps, n, rows[a - 1], base + (a - 1));
      assert FastTemps(rows)[a] == rows[a - 1].(rowId := a);
    }
  }

  lemma SameColumns(env: Env, temps: Temps, tn: Nodes, n: Node, rows: seq<TempRow>, base: nat, i: nat, cols: set<Col>)
    requires Flat(n) && i < |rows| && RowAt(temps, n, rows[i], base + i)
    ensures forall c :: c in cols ==> ColumnValue(env, temps, tn, Site(n, Root), temps[base + i], c)
                                      == ColumnValue(FastEnv(env, base), FastTemps(rows), FastNodes(n), Site(n, Root),
                                                     rows[i].(rowId := 1 + i), c)
  {
    assert base + i == base + (1 + i - 1);
  }

  // ---- and write the same table -----------------------------------------------------------------------------------

  lemma SamePick(ident: Col, res: map<nat, Row>, fast: map<nat, Row>, base: nat, count: nat, k: Value)
    requires Aligned(res, fast, base, count) && DistinctIdents(res, ident) && k in Idents(res, ident)
    ensures k in Idents(fast, ident)
    ensures base <= Pick(res, ident, k) < base + count
    ensures Pick(res, ident, k) - base + 1 == Pick(fast, ident, k)
            && res[Pick(res, ident, k)] == fast[Pick(fast, ident, k)]
  {
    var i := Pick(res, ident, k) - base;
    assert SameAt(res, fast, base, i);
    assert Get(fast[1 + i], ident) == k;
    var j := Pick(fast, ident, k) - 1;
    assert SameAt(res, fast, base, j);
  }

  lemma SameIdents(ident: Col, res: map<nat, Row>, fast: map<nat, Row>, base: nat, count: nat)
    requires Aligned(res, fast, base, count)
    ensures Idents(res, ident) == Idents(fast, ident)
  {
    forall k ensures k in Idents(res, ident) <==> k in Idents(fast, ident) {
      if k in Idents(res, ident) {
        var a :| a in res && Get(res[a], ident) == k;
        assert SameAt(res, fast, base, a - base);
      }
      if k in Idents(fast, ident) {
        var a :| a in fast && Get(fast[a], ident) == k;
        assert SameAt(res, fast, base, a - 1);
      }
    }
  }

  lemma SameDistinct(ident: Col, res: map<nat, Row>, fast: map<nat, Row>, base: nat, count: nat)
    requires Aligned(res, fast, base, count)
    ensures DistinctIdents(res, ident) <==> DistinctIdents(fast, ident)
  {
    hide Idents;
    SameIdents(ident, res, fast, base, count);
    if DistinctIdents(res, ident) {
      forall a, b | a in fast && b in fast && Get(fast[a], ident) == Get(fast[b], ident) ensures a == b {
        assert SameAt(res, fast, base, a - 1) && SameAt(res, fast, base, b - 1);
      }
    }
    if DistinctIdents(fast, ident) {
      forall a, b | a in res && b in res && Get(res[a], ident) == Get(res[b], ident) ensures a == b {
        assert SameAt(res, fast, base, a - base) && SameAt(res, fast, base, b - base);
      }
    }
  }

  lemma SameNewRow(env: Env, rel: Rel, base: nat, i: nat, r: Row)
    ensures NewRow(env, rel, base + i, r) == NewRow(FastEnv(env, base), rel, 1 + i, r)
  {
    assert base + i == base + (1 + i - 1);
  }

  lemma SameUpsert(env: Env, t: Table, rel: Rel, res: map<nat, Row>, fast: map<nat, Row>, base: nat, count: nat,
                   columns: set<Col>)
    requires Aligned(res, fast, base, count) && DistinctIdents(res, env.ident(rel))
    ensures UpsertTable(env, t, rel, res, columns) == UpsertTable(FastEnv(env, base), t, rel, fast, columns)
    ensures InsertNew(env, t, rel, res) == InsertNew(FastEnv(env, base), t, rel, fast)
  {
    hide NewRow, Aligned, DistinctIdents, Idents;
    var ident := env.ident(rel);
    SameIdents(ident, res, fast, base, count);
    SameDistinct(ident, res, fast, base, count);
    forall k | k in Idents(res, ident)
      ensures res[Pick(res, ident, k)] == fast[Pick(fast, ident, k)]
      ensures NewRow(env, rel, Pick(res, ident, k), res[Pick(res, ident, k)])
              == NewRow(FastEnv(env, base), rel, Pick(fast, ident, k), fast[Pick(fast, ident, k)])
    {
      SamePick(ident, res, fast, base, count, k);
      SameNewRow(env, rel, base, Pick(res, ident, k) - base, res[Pick(res, ident, k)]);
    }
  }

  lemma SameUpdate(env: Env, t: Table, n: Node, res: map<nat, Row>, fast: map<nat, Row>, temps: Temps,
                   rows: seq<TempRow>, base: nat)
    requires Aligned(res, fast, base, |rows|) && DistinctIdents(res, env.ident(n.rel)) && res.Keys <= temps.Keys
             && fast.Keys <= FastTemps(rows).Keys
    requires forall i :: 0 <= i < |rows| ==> RowAt(temps, n, rows[i], base + i)
    ensures UpdateTable(env, t, Site(n, Root), res, temps)
            == UpdateTable(FastEnv(env, base), t, Site(n, Root), fast, FastTemps(rows))
  {
    hide DistinctIdents, Idents, SetColumns, KeyLinked, Aligned, FastTemps;
    var ident := env.ident(n.rel);
    SameIdents(ident, res, fast, base, |rows|);
    SameSet(env, n, base);
    forall k | k in Idents(res, ident)
      ensures res[Pick(res, ident, k)] == fast[Pick(fast, ident, k)]
      ensures temps[Pick(res, ident, k)].mask == FastTemps(rows)[Pick(fast, ident, k)].mask
    {
      SamePick(ident, res, fast, base, |rows|, k);
      var i := Pick(res, ident, k) - base;
      assert RowAt(temps, n, rows[i], base + i);
      FastRow(rows, i);
    }
  }

  lemma SameSet(env: Env, n: Node, base: nat)
    ensures SetColumns(FastEnv(env, base), Site(n, Root)) == SetColumns(env, Site(n, Root))
    ensures InsertColumns(FastEnv(env, base), Site(n, Root)) == InsertColumns(env, Site(n, Root))
    ensures KeyColumns(FastEnv(env, base), Site(n, Root)) == KeyColumns(env, Site(n, Root))
    ensures FastEnv(env, base).ident(n.rel) == env.ident(n.rel)
  {
  }

  // ---- the key each temp row ends up with -------------------------------------------------------------------------

  /** A temp row's key finds the row its statement wrote, or nothing when it wrote none. */
  ghost predicate KeyFinds(env: Env, t: Table, n: Node, key: Value, k: Value) {
    (key in t <==> k in t) && (k in t ==> key == k) && (key == Null || key == k)
  }

  lemma InsertKey(env: Env, s: State, tn: Nodes, n: Node, a: nat)
    requires n.mode == INSERT && RunInsert(env, s, tn, Site(n, Root)).Some? && a in Sources(s.temps, tn, Site(n, Root))
    ensures var s' := RunInsert(env, s, tn, Site(n, Root)).value;
            var res := Resolved(env, s.temps, tn, Site(n, Root), InsertColumns(env, Site(n, Root)));
            KeyFinds(env, TableOf(s'.db, n.rel), n, Get(s'.temps[a].vals, env.ident(n.rel)),
                     Get(res[a], env.ident(n.rel)))
  {
    hide InsertNew, ColumnValue, InsertColumns, Sources;
    assert env.ident(n.rel) in KeyColumns(env, Site(n, Root));
  }

  lemma UpsertKey(env: Env, s: State, tn: Nodes, n: Node, a: nat)
    requires RunUpsert(env, s, tn, Site(n, Root)).Some? && a in Sources(s.temps, tn, Site(n, Root))
    requires Keyed(TableOf(s.db, n.rel), env.ident(n.rel))
    ensures var s' := RunUpsert(env, s, tn, Site(n, Root)).value;
            var res := Resolved(env, s.temps, tn, Site(n, Root), InsertColumns(env, Site(n, Root)));
            KeyFinds(env, TableOf(s'.db, n.rel), n, Get(s'.temps[a].vals, env.ident(n.rel)),
                     Get(res[a], env.ident(n.rel)))
  {
    hide UpsertTable, ColumnValue, Sources, ColumnsFor, Keyed;
    var site := Site(n, Root);
    var res := Resolved(env, s.temps, tn, site, InsertColumns(env, site));
    assert env.ident(n.rel) in KeyColumns(env, site) && env.ident(n.rel) in InsertColumns(env, site);
    StoredRow(env, TableOf(s.db, n.rel), n.rel, res, SetColumns(env, site), a);
  }

  lemma UpdateKey(env: Env, s: State, tn: Nodes, n: Node, a: nat)
    requires Flat(n) && a in Sources(s.temps, tn, Site(n, Root)) && s.temps[a].mask == s.temps[a].vals.Keys
    requires Keyed(TableOf(s.db, n.rel), env.ident(n.rel)) && Null !in TableOf(s.db, n.rel)
    requires DistinctIdents(Resolved(env, s.temps, tn, Site(n, Root),
                                     SetColumns(env, Site(n, Root)) + {env.ident(n.rel)}), env.ident(n.rel))
    ensures var s' := RunUpdate(env, s, tn, Site(n, Root)).value;
            var res := Resolved(env, s.temps, tn, Site(n, Root), SetColumns(env, Site(n, Root)) + {env.ident(n.rel)});
            KeyFinds(env, TableOf(s'.db, n.rel), n, Get(s'.temps[a].vals, env.ident(n.rel)),
                     Get(res[a], env.ident(n.rel)))
  {
    hide UpdateTable, ColumnsFor, Sources, Keyed;
    var site := Site(n, Root);
    var ident := env.ident(n.rel);
    var res := Resolved(env, s.temps, tn, site, SetColumns(env, site) + {ident});
    var k := Get(res[a], ident);
    UpdatedRow(env, TableOf(s.db, n.rel), site, res, s.temps, k);
    assert k in Idents(res, ident) && Pick(res, ident, k) == a;
    assert res[a][ident] == ColumnValue(env, s.temps, tn, site, s.temps[a], ident);
    assert ident in KeyColumns(env, site);
  }

  lemma UpdatedRow(env: Env, t: Table, site: Site, res: map<nat, Row>, temps: Temps, k: Value)
    requires res.Keys <= temps.Keys && Keyed(t, env.ident(site.n.rel))
    ensures UpdateTable(env, t, site, res, temps).Keys == t.Keys
    ensures k in t ==> Get(UpdateTable(env, t, site, res, temps)[k], env.ident(site.n.rel)) == k
  {
    hide ColumnsFor, KeyLinked, Idents;
  }

  // ---- the refinement ---------------------------------------------------------------------------------------------

  /** The rows of an update-existing have different identities; the other modes refuse rows that do not. */
  ghost predicate Distinguished(env: Env, s: State, tn: Nodes, n: Node) {
    n.mode == UPDATE_EXISTING ==>
      DistinctIdents(Resolved(env, s.temps, tn, Site(n, Root), Columns(env, n)), env.ident(n.rel))
  }

  lemma KeyAfter(env: Env, s: State, tn: Nodes, n: Node, a: nat)
    requires Flat(n) && Run(env, s, tn, Site(n, Root)).Some? && a in Sources(s.temps, tn, Site(n, Root))
             && s.temps[a].mask == s.temps[a].vals.Keys
    requires Keyed(TableOf(s.db, n.rel), env.ident(n.rel)) && Null !in TableOf(s.db, n.rel)
    requires Distinguished(env, s, tn, n)
    ensures var s' := Run(env, s, tn, Site(n, Root)).value;
            var res := Resolved(env, s.temps, tn, Site(n, Root), Columns(env, n));
            && SameRows(s.temps, s'.temps)
            && KeyFinds(env, TableOf(s'.db, n.rel), n, Get(s'.temps[a].vals, env.ident(n.rel)),
                        Get(res[a], env.ident(n.rel)))
            && (n.mode == UPDATE_EXISTING ==> TableOf(s'.db, n.rel).Keys == TableOf(s.db, n.rel).Keys)
  {
    hide RunInsert, RunUpsert, RunUpdate, Keyed, Resolved, Sources, TableOf, KeyFinds, InsertColumns, SetColumns;
    RunKeepsRows(env, s, tn, n);
    if n.mode == INSERT {
      InsertKey(env, s, tn, n, a);
    } else if n.mode == UPSERT {
      UpsertKey(env, s, tn, n, a);
    } else {
      UpdateKey(env, s, tn, n, a);
      UpdateKeys(env, s, tn, n);
    }
  }

  lemma RunKeepsRows(env: Env, s: State, tn: Nodes, n: Node)
    requires Flat(n) && Run(env, s, tn, Site(n, Root)).Some?
    ensures SameRows(s.temps, Run(env, s, tn, Site(n, Root)).value.temps)
  {
    hide Resolved, UpsertTable, InsertNew, UpdateTable, DistinctIdents, Idents, KeyColumns, SetColumns, InsertColumns;
  }

  lemma UpdateKeys(env: Env, s: State, tn: Nodes, n: Node)
    requires Keyed(TableOf(s.db, n.rel), env.ident(n.rel))
    ensures TableOf(RunUpdate(env, s, tn, Site(n, Root)).value.db, n.rel).Keys == TableOf(s.db, n.rel).Keys
  {
    hide Resolved, WriteBack, SetColumns, Keyed, UpdateTable;
    UpdatedRow(env, TableOf(s.db, n.rel), Site(n, Root),
               Resolved(env, s.temps, tn, Site(n, Root), SetColumns(env, Site(n, Root)) + {env.ident(n.rel)}), s.temps,
               Null);
  }

  /** Both statements are refused, or write the same table. */
  lemma SameTable(env: Env, s: State, tn: Nodes, n: Node, rows: seq<TempRow>, base: nat)
    requires Flat(n) && Holds(s.temps, tn, n, rows, base)
    requires Distinguished(env, s, tn, n)
    ensures var r := Run(env, s, tn, Site(n, Root));
            var f := Run(FastEnv(env, base), State(s.db, FastTemps(rows)), FastNodes(n), Site(n, Root));
            (r.Some? <==> f.Some?) && (r.Some? ==> TableOf(r.value.db, n.rel) == TableOf(f.value.db, n.rel))
  {
    hide UpsertTable, InsertNew, UpdateTable, Resolved, DistinctIdents, Idents, FastTemps, WriteBack, Found, KeyColumns,
         SetColumns, InsertColumns, FastEnv, Aligned;
    var site := Site(n, Root);
    var env' := FastEnv(env, base);
    SameSet(env, n, base);
    var cols := Columns(env, n);
    ResolvedAligned(env, s.temps, tn, n, rows, base, cols);
    var res := Resolved(env, s.temps, tn, site, cols);
    var fast := Resolved(env', FastTemps(rows), FastNodes(n), site, cols);
    var ident := env.ident(n.rel);
    SameIdents(ident, res, fast, base, |rows|);
    SameDistinct(ident, res, fast, base, |rows|);
    if n.mode == UPDATE_EXISTING {
      SameUpdate(env, TableOf(s.db, n.rel), n, res, fast, s.temps, rows, base);
    } else if DistinctIdents(res, ident) {
      SameUpsert(env, TableOf(s.db, n.rel), n.rel, res, fast, base, |rows|, SetColumns(env, site));
    }
  }

  /** Temp row by temp row, the read-back finds what the fast statement returns. */
  ghost predicate ReadsSame(env: Env, s: State, n: Node, base: nat, count: nat, env': Env, t0: Table, t: Table,
                            fast: map<nat, Row>) {
    forall a: nat :: ReadOne(env, s, n, a) == if base <= a < base + count
                     then ReturnedOne(env', t0, t, n, fast, a - base + 1) else []
  }

  lemma {:induction false} ReadBackSame(env: Env, s: State, n: Node, base: nat, count: nat, env': Env, t0: Table,
                                        t: Table, fast: map<nat, Row>, hi: nat)
    requires ReadsSame(env, s, n, base, count, env', t0, t, fast)
    ensures ReadBack(env, s, n, 0, hi) == Returned(env', t0, t, n, fast, if hi <= base then 0
                                                   else if hi >= base + count then count else hi - base)
    decreases hi
  {
    hide ReadOne, ReturnedOne;
    if hi > 0 {
      ReadBackSame(env, s, n, base, count, env', t0, t, fast, hi - 1);
      var _ := ReadOne(env, s, n, hi - 1);
    }
  }

  /** The rows both paths answer from. */
  lemma SameReturned(env: Env, s: State, tn: Nodes, n: Node, rows: seq<TempRow>, base: nat, hi: nat)
    requires Flat(n) && Holds(s.temps, tn, n, rows, base) && base + |rows| <= hi && Run(env, s, tn, Site(n, Root)).Some?
    requires Keyed(TableOf(s.db, n.rel), env.ident(n.rel)) && Null !in TableOf(s.db, n.rel)
    requires Distinguished(env, s, tn, n)
    ensures var r := Run(env, s, tn, Site(n, Root)).value;
            var fast := Resolved(FastEnv(env, base), FastTemps(rows), FastNodes(n), Site(n, Root),
                                 Columns(FastEnv(env, base), n));
            ReadBack(env, r, n, 0, hi) == Returned(FastEnv(env, base), TableOf(s.db, n.rel), TableOf(r.db, n.rel), n,
                                                   fast, |rows|)
  {
    hide Run, Resolved, DistinctIdents, Keyed, FastEnv, FastTemps, Columns, ReadBack, Returned, TableOf;
    var r := Run(env, s, tn, Site(n, Root));
    SameResponse(env, s, tn, n, rows, base);
    SameSet(env, n, base);
    SameChosen(env, n, base);
    var fast := Resolved(FastEnv(env, base), FastTemps(rows), FastNodes(n), Site(n, Root), Columns(env, n));
    ReadBackSame(env, r.value, n, base, |rows|, FastEnv(env, base), TableOf(s.db, n.rel), TableOf(r.value.db, n.rel),
                 fast, hi);
  }

  /** Nothing written, nothing answered. */
  lemma NothingAnswered(q: Query, w: World, seen: Sight)
    ensures Answer(q, w, AllFacts(q, [], w, seen)) == []
  {
  }

  /** Rows that answer the same columns answer the same, if both statements may be ordered as they are. */
  lemma AnswersSame(q: Query, o: Options, fast: Order, w: World, a: Sight, b: Sight, x: seq<Row>, y: seq<Row>)
    requires EligibleQuery(q, o) && Allowed(q, GeneralOrder(q)) && Allowed(q, fast)
    requires AllAlike(Passing(q.where, w, b, x), Passing(q.where, w, b, y))
    ensures Respond(q, fast, w, a, x) == Respond(q, GeneralOrder(q), w, b, y)
    ensures Respond(q, GeneralOrder(q), w, b, y).Some?
  {
    hide EligibleQuery, Answer, AllFacts, Passing, AllAlike;
    EligibleWhere(q, o);
    PassingAlone(q.where, w, a, b, x);
    PassingAlone(q.where, w, a, b, y);
    RespondPassing(q, o, GeneralOrder(q), x, y, w, a, b);
  }

  lemma EligibleWhere(q: Query, o: Options)
    requires EligibleQuery(q, o)
    ensures PlainWhere(q.where)
  {
  }

  /**
   The fast path refines the general one, whatever either sees beside the rows, as long as the rest of the request
   leaves what the answer reads: they are refused together, or leave the same table and give the same response, if and
   only if their orders agree.
   */
  lemma FastRefinesGeneral(env: Env, s: State, tn: Nodes, n: Node, q: Query, o: Options, w: World, fastSees: Sight,
                           generalSees: Sight, rows: seq<TempRow>, base: nat, hi: nat, end: State)
    requires EligibleQuery(q, o) && Flat(n) && Holds(s.temps, tn, n, rows, base) && base + |rows| <= hi
             && WellKept(env, s.db, n.rel)
    requires Distinguished(env, s, tn, n)
    requires var r := GeneralRun(env, s, tn, n, rows);
             r.Some? ==> ReadsAlike(env, r.value, end, n, hi, q.where, w, generalSees)
    ensures FastWrite(FastEnv(env, base), s.db, n, q, w, fastSees, rows)
            == GeneralWrite(env, s, tn, n, q, w, generalSees, rows, hi, end)
            <==> Agree(q, FastOrder(q, n.mode),
                       Clash(env, TableOf(s.db, n.rel), n, Resolved(env, s.temps, tn, Site(n, Root), Columns(env, n))),
                       rows == [])
  {
    hide Run, Resolved, DistinctIdents, Keyed, FastEnv, FastTemps, Columns, ReadBack, Returned, TableOf, EligibleQuery,
         Allowed, Answer, AllFacts, Passing, AllAlike, Clash;
    ClashIff(env, s, tn, n);
    OrdersDisagree(q, n.mode);
    if rows == [] {
      NothingRead(env, s, n, hi);
      NothingLeft(q, w, generalSees, ReadBack(env, end, n, 0, hi));
      NoClash(env, s, tn, n);
    } else {
      SameTable(env, s, tn, n, rows, base);
      var r := Run(env, s, tn, Site(n, Root));
      if r.Some? {
        SameReturned(env, s, tn, n, rows, base, hi);
        if Allowed(q, GeneralOrder(q)) {
          AnswersSame(q, o, FastOrder(q, n.mode), w, fastSees, generalSees, ReadBack(env, r.value, n, 0, hi),
                      ReadBack(env, end, n, 0, hi));
        }
      }
    }
  }

  lemma NoClash(env: Env, s: State, tn: Nodes, n: Node)
    requires forall a :: a in s.temps ==> !Selected(tn, n, s.temps[a])
    ensures !Clash(env, TableOf(s.db, n.rel), n, Resolved(env, s.temps, tn, Site(n, Root), Columns(env, n)))
  {
    hide Columns;
    assert Sources(s.temps, tn, Site(n, Root)) == {};
  }

  /** An answer over what passes the where is empty when nothing passes. */
  lemma NothingLeft(q: Query, w: World, seen: Sight, rows: seq<Row>)
    requires AllAlike(Passing(q.where, w, seen, []), Passing(q.where, w, seen, rows))
    ensures Answer(q, w, AllFacts(q, rows, w, seen)) == []
  {
    KeptFacts(q, rows, w, seen);
    assert Passing(q.where, w, seen, rows) == [];
  }

  /** Both paths answer every eligible query that has this where and whose orders agree the same. */
  ghost predicate AnsweredSame(env: Env, s: State, tn: Nodes, n: Node, where: Option<Expr>, w: World, fastSees: Sight,
                               generalSees: Sight, rows: seq<TempRow>, base: nat, hi: nat, end: State) {
    forall q, o :: EligibleQuery(q, o) && q.where == where && Allowed(q, GeneralOrder(q)) ==>
      FastWrite(FastEnv(env, base), s.db, n, q, w, fastSees, rows)
      == GeneralWrite(env, s, tn, n, q, w, generalSees, rows, hi, end)
  }

  /**
   The rest of the request may not touch what the answer reads: exactly then every such query is answered the same.
   */
  lemma EveryQuery(env: Env, s: State, tn: Nodes, n: Node, where: Option<Expr>, w: World, fastSees: Sight,
                   generalSees: Sight, rows: seq<TempRow>, base: nat, hi: nat, end: State)
    requires PlainWhere(where) && Flat(n) && Holds(s.temps, tn, n, rows, base) && base + |rows| <= hi
             && WellKept(env, s.db, n.rel)
    requires Distinguished(env, s, tn, n)
    requires GeneralRun(env, s, tn, n, rows).Some? && rows != []
    ensures AnsweredSame(env, s, tn, n, where, w, fastSees, generalSees, rows, base, hi, end)
            <==> ReadsAlike(env, GeneralRun(env, s, tn, n, rows).value, end, n, hi, where, w, generalSees)
  {
    hide Run, Resolved, Distinguished, Keyed, FastEnv, FastTemps, Columns, ReadBack, Returned, TableOf, EligibleQuery,
         Allowed, FastWrite, GeneralWrite, Holds, Flat, WellKept, ReadsAlike, Clash, AllAlike;
    var r := GeneralRun(env, s, tn, n, rows).value;
    if ReadsAlike(env, r, end, n, hi, where, w, generalSees) {
      forall q, o | EligibleQuery(q, o) && q.where == where && Allowed(q, GeneralOrder(q))
        ensures FastWrite(FastEnv(env, base), s.db, n, q, w, fastSees, rows)
                == GeneralWrite(env, s, tn, n, q, w, generalSees, rows, hi, end)
      {
        FastRefinesGeneral(env, s, tn, n, q, o, w, fastSees, generalSees, rows, base, hi, end);
      }
    }
    if AnsweredSame(env, s, tn, n, where, w, fastSees, generalSees, rows, base, hi, end) {
      var x := Passing(where, w, generalSees, ReadBack(env, r, n, 0, hi));
      var y := Passing(where, w, generalSees, ReadBack(env, end, n, 0, hi));
      forall c ensures Shown(x, c) == Shown(y, c) {
        ShowEligible(c, where);
        ShownBoth(env, s, tn, n, where, w, fastSees, generalSees, rows, base, hi, end, c);
      }
      AlikeByColumns(x, y);
      IsAlike(env, r, end, n, hi, where, w, generalSees);
    }
  }

  lemma IsAlike(env: Env, r: State, end: State, n: Node, hi: nat, where: Option<Expr>, w: World, seen: Sight)
    requires AllAlike(Passing(where, w, seen, ReadBack(env, r, n, 0, hi)),
                      Passing(where, w, seen, ReadBack(env, end, n, 0, hi)))
    ensures ReadsAlike(env, r, end, n, hi, where, w, seen)
  {
  }

  lemma ShowEligible(c: Col, where: Option<Expr>)
    requires PlainWhere(where)
    ensures EligibleQuery(ShowColumn(c, where), Options(false, false, false, false))
    ensures Allowed(ShowColumn(c, where), GeneralOrder(ShowColumn(c, where)))
  {
  }

  /** What both paths answer to a query that shows one column. */
  lemma ShownBoth(env: Env, s: State, tn: Nodes, n: Node, where: Option<Expr>, w: World, fastSees: Sight,
                  generalSees: Sight, rows: seq<TempRow>, base: nat, hi: nat, end: State, c: Col)
    requires PlainWhere(where) && Flat(n) && Holds(s.temps, tn, n, rows, base) && base + |rows| <= hi
             && WellKept(env, s.db, n.rel)
    requires Distinguished(env, s, tn, n)
    requires GeneralRun(env, s, tn, n, rows).Some? && rows != []
    ensures var q, r := ShowColumn(c, where), GeneralRun(env, s, tn, n, rows).value;
            var fast, general := FastWrite(FastEnv(env, base), s.db, n, q, w, fastSees, rows),
                GeneralWrite(env, s, tn, n, q, w, generalSees, rows, hi, end);
            && fast.Some? && fast.value.response == Shown(Passing(where, w, generalSees, ReadBack(env, r, n, 0, hi)), c)
            && general.Some? && general.value.response
            == Shown(Passing(where, w, generalSees, ReadBack(env, end, n, 0, hi)), c)
  {
    hide Run, Resolved, DistinctIdents, Keyed, FastEnv, FastTemps, Columns, ReadBack, Returned, TableOf, Answer,
         AllFacts, Passing, Shown;
    var q, r := ShowColumn(c, where), GeneralRun(env, s, tn, n, rows).value;
    SameTable(env, s, tn, n, rows, base);
    SameReturned(env, s, tn, n, rows, base, hi);
    ShownAnswer(c, where, ReadBack(env, r, n, 0, hi), w, fastSees);
    ShownAnswer(c, where, ReadBack(env, end, n, 0, hi), w, generalSees);
    PassingAlone(where, w, fastSees, generalSees, ReadBack(env, r, n, 0, hi));
  }

  /** The orders disagree on a response without order_by that is distinct, unless row ids order both. */
  lemma OrdersDisagree(q: Query, mode: Mode)
    ensures Allowed(q, FastOrder(q, mode)) && !Allowed(q, GeneralOrder(q))
            <==> q.orderBy == [] && (q.distinct || q.distinctOn != []) && mode != UPDATE_EXISTING
    ensures Allowed(q, GeneralOrder(q)) ==> Allowed(q, FastOrder(q, mode))
  {
  }

  lemma SameChosen(env: Env, n: Node, base: nat)
    ensures Columns(FastEnv(env, base), n) == Columns(env, n)
  {
    SameSet(env, n, base);
  }

  lemma {:induction false} NothingRead(env: Env, s: State, n: Node, hi: nat)
    requires forall a :: a in s.temps ==> s.temps[a].node != n.id
    ensures ReadBack(env, s, n, 0, hi) == []
  {
    if hi > 0 {
      NothingRead(env, s, n, hi - 1);
    }
  }

  lemma SameResponse(env: Env, s: State, tn: Nodes, n: Node, rows: seq<TempRow>, base: nat)
    requires Flat(n) && Holds(s.temps, tn, n, rows, base) && Run(env, s, tn, Site(n, Root)).Some?
    requires Keyed(TableOf(s.db, n.rel), env.ident(n.rel)) && Null !in TableOf(s.db, n.rel)
    requires Distinguished(env, s, tn, n)
    ensures var s' := Run(env, s, tn, Site(n, Root)).value;
            var fast := Resolved(FastEnv(env, base), FastTemps(rows), FastNodes(n), Site(n, Root), Columns(env, n));
            ReadsSame(env, s', n, base, |rows|, FastEnv(env, base), TableOf(s.db, n.rel), TableOf(s'.db, n.rel), fast)
  {
    hide Run, Resolved, Keyed, FastTemps, Columns, TableOf, KeyFinds, Sources, Owns;
    var site := Site(n, Root);
    var s' := Run(env, s, tn, site).value;
    var res := Resolved(env, s.temps, tn, site, Columns(env, n));
    var fast := Resolved(FastEnv(env, base), FastTemps(rows), FastNodes(n), site, Columns(env, n));
    ResolvedAligned(env, s.temps, tn, n, rows, base, Columns(env, n));
    RunKeepsRows(env, s, tn, n);
    forall a: nat ensures ReadOne(env, s', n, a)
                  == if base <= a < base + |rows|
                  then ReturnedOne(FastEnv(env, base), TableOf(s.db, n.rel), TableOf(s'.db, n.rel), n, fast,
                                   a - base + 1) else [] {
      if base <= a < base + |rows| {
        OneResponse(env, s, tn, n, rows, base, a - base);
      } else if a in s.temps {
        assert s'.temps[a] == s.temps[a].(vals := s'.temps[a].vals);
      }
    }
  }

  lemma OneResponse(env: Env, s: State, tn: Nodes, n: Node, rows: seq<TempRow>, base: nat, i: nat)
    requires Flat(n) && Holds(s.temps, tn, n, rows, base) && Run(env, s, tn, Site(n, Root)).Some? && i < |rows|
    requires Keyed(TableOf(s.db, n.rel), env.ident(n.rel)) && Null !in TableOf(s.db, n.rel)
    requires Distinguished(env, s, tn, n)
    ensures var s' := Run(env, s, tn, Site(n, Root)).value;
            var fast := Resolved(FastEnv(env, base), FastTemps(rows), FastNodes(n), Site(n, Root), Columns(env, n));
            ReadOne(env, s', n, base + i) == ReturnedOne(FastEnv(env, base), TableOf(s.db, n.rel),
                                                         TableOf(s'.db, n.rel), n, fast, i + 1)
  {
    hide Run, Resolved, Keyed, FastTemps, Columns, TableOf, Sources, Owns, DistinctIdents;
    var site := Site(n, Root);
    var s' := Run(env, s, tn, site).value;
    var res := Resolved(env, s.temps, tn, site, Columns(env, n));
    var fast := Resolved(FastEnv(env, base), FastTemps(rows), FastNodes(n), site, Columns(env, n));
    ResolvedAligned(env, s.temps, tn, n, rows, base, Columns(env, n));
    SourcesAligned(s.temps, tn, n, rows, base);
    assert SameAt(res, fast, base, i);
    assert RowAt(s.temps, n, rows[i], base + i);
    KeyAfter(env, s, tn, n, base + i);
    assert s'.temps[base + i] == s.temps[base + i].(vals := s'.temps[base + i].vals);
  }

  // ---- the state the statement leaves -----------------------------------------------------------------------------

  /** A temp row ends up with the identity its statement resolved, or with none. */
  lemma KeyOf(env: Env, s: State, tn: Nodes, n: Node, rows: seq<TempRow>, base: nat, a: nat)
    requires Flat(n) && Holds(s.temps, tn, n, rows, base) && WellKept(env, s.db, n.rel) && Distinguished(env, s, tn, n)
    requires Run(env, s, tn, Site(n, Root)).Some? && IsOwn(Run(env, s, tn, Site(n, Root)).value.temps, n, a)
    ensures var r := Run(env, s, tn, Site(n, Root)).value;
            var res := Resolved(env, s.temps, tn, Site(n, Root), Columns(env, n));
            && base <= a < base + |rows| && r.temps[a].rel == n.rel && r.temps[a].parent.None? && a in res
            && (RowKey(env, r.temps, n, a) == Null || RowKey(env, r.temps, n, a) == Get(res[a], env.ident(n.rel)))
  {
    hide Run, Resolved, Keyed, Columns, TableOf, Sources, Owns, DistinctIdents;
    RunKeepsRows(env, s, tn, n);
    var r := Run(env, s, tn, Site(n, Root)).value;
    assert r.temps[a] == s.temps[a].(vals := r.temps[a].vals);
    SourcesAligned(s.temps, tn, n, rows, base);
    assert RowAt(s.temps, n, rows[a - base], base + (a - base));
    KeyAfter(env, s, tn, n, a);
  }

  lemma RunApart(env: Env, s: State, tn: Nodes, n: Node, rows: seq<TempRow>, base: nat, hi: nat)
    requires Flat(n) && Holds(s.temps, tn, n, rows, base) && base + |rows| <= hi && WellKept(env, s.db, n.rel)
    requires Distinguished(env, s, tn, n) && Run(env, s, tn, Site(n, Root)).Some?
    ensures var r := Run(env, s, tn, Site(n, Root)).value; KeysApart(env, r.temps, n, hi) && WellKept(env, r.db, n.rel)
  {
    hide Run, Resolved, Keyed, Columns, TableOf, Holds, Flat, Idents, RowKey;
    var r := Run(env, s, tn, Site(n, Root)).value;
    var res := Resolved(env, s.temps, tn, Site(n, Root), Columns(env, n));
    RunGrows(env, s, tn, Site(n, Root), n.rel);
    RunNoNull(env, s, tn, Site(n, Root), n.rel);
    ClashIff(env, s, tn, n);
    forall a: nat | IsOwn(r.temps, n, a)
      ensures a in r.temps && r.temps[a].rel == n.rel && r.temps[a].parent.None? && a < hi
    {
      KeyOf(env, s, tn, n, rows, base, a);
    }
    forall a: nat, b: nat | IsOwn(r.temps, n, a) && IsOwn(r.temps, n, b)
    && RowKey(env, r.temps, n, a) == RowKey(env, r.temps, n, b) != Null
      ensures a == b
    {
      KeyOf(env, s, tn, n, rows, base, a);
      KeyOf(env, s, tn, n, rows, base, b);
    }
  }

  // ---- where the orders part --------------------------------------------------------------------------------------

  /**
   An insert of rows with a distinct response and no order_by is answered by the fast path and refused by the general
   one, whatever the rest of the request does.
   */
  lemma DistinctParts(env: Env, s: State, tn: Nodes, n: Node, q: Query, w: World, fastSees: Sight, generalSees: Sight,
                      rows: seq<TempRow>, base: nat, hi: nat, end: State)
    requires Flat(n) && n.mode != UPDATE_EXISTING && Holds(s.temps, tn, n, rows, base) && rows != []
    requires Run(env, s, tn, Site(n, Root)).Some? && q.orderBy == [] && (q.distinct || q.distinctOn != [])
    ensures FastWrite(FastEnv(env, base), s.db, n, q, w, fastSees, rows).Some?
    ensures GeneralWrite(env, s, tn, n, q, w, generalSees, rows, hi, end).None?
  {
    hide Run, Resolved, FastEnv, FastTemps, Columns, ReadBack, Returned, TableOf, Answer, AllFacts;
    SameTable(env, s, tn, n, rows, base);
  }
}
