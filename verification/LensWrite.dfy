/**
 The lens of a select and the update statement are one: the values and the presence mask a payload fills, put through
 the statement of query/write_dml.go, change a stored row as the lens says.
 */
module LensWrite {
  import opened Wrappers
  import opened WriteTree
  import opened WriteStatements
  import Lens

  /** The number of a column. */
  type Numbers = string -> Col

  /** A stored row holds what a row of named columns says. */
  ghost predicate Represents(env: Env, rel: Rel, num: Numbers, row: Lens.Row, r: Row) {
    forall c :: c in row ==> env.encode(rel, num(c), row[c]) == Some(Get(r, num(c)))
  }

  /** A node's extractors are those of its select, each once. */
  ghost predicate Extracts(n: Node, occs: seq<Lens.Occ>, num: Numbers) {
    && (forall o :: Lens.IsExtractor(occs, o) ==> Extractor(o.path, num(o.col)) in n.extractors)
    && (forall ex :: ex in n.extractors ==> exists o :: Lens.IsExtractor(occs, o)
                                                        && ex == Extractor(o.path, num(o.col)))
    && (forall i, j :: 0 <= i < j < |n.extractors| ==> n.extractors[i].col != n.extractors[j].col)
  }

  // ---- what fill fills ----------------------------------------------------------------------------------------

  /** A column is filled if and only if the payload has something at its path, with the encoding of that. */
  lemma {:induction false} FillIs(env: Env, rel: Rel, exs: seq<Extractor>, raw: Json, ex: Extractor)
    requires Fill(env, rel, exs, raw).Some? && ex in exs
    requires forall i, j :: 0 <= i < j < |exs| ==> exs[i].col != exs[j].col
    ensures var vals, v := Fill(env, rel, exs, raw).value, Follow(raw, ex.path);
            if v.None? then ex.col !in vals else ex.col in vals
                                                 && env.encode(rel, ex.col, v.value) == Some(vals[ex.col])
    decreases |exs|
  {
    var init, last := exs[..|exs| - 1], exs[|exs| - 1];
    if ex in init {
      FillIs(env, rel, init, raw, ex);
      var i :| 0 <= i < |init| && init[i] == ex;
      assert exs[i].col != exs[|exs| - 1].col;
    } else {
      assert ex == last;
      forall i | 0 <= i < |init| ensures init[i].col != last.col {
        assert exs[i].col != exs[|exs| - 1].col;
      }
      FillOnly(env, rel, init, raw);
    }
  }

  lemma {:induction false} FillOnly(env: Env, rel: Rel, exs: seq<Extractor>, raw: Json)
    requires Fill(env, rel, exs, raw).Some?
    ensures forall c :: c in Fill(env, rel, exs, raw).value ==> exists i :: 0 <= i < |exs| && exs[i].col == c
    decreases |exs|
  {
    if exs != [] {
      FillOnly(env, rel, exs[..|exs| - 1], raw);
      forall c | c in Fill(env, rel, exs, raw).value ensures exists i :: 0 <= i < |exs| && exs[i].col == c {
        if c in Fill(env, rel, exs[..|exs| - 1], raw).value {
          var i :| 0 <= i < |exs| - 1 && exs[..|exs| - 1][i].col == c;
          assert exs[i].col == c;
        }
      }
    }
  }

  // ---- the statement ---------------------------------------------------------------------------------------------

  /** A node on its own, all columns allowed. */
  predicate Alone(n: Node) {
    n.outgoing == [] && n.incoming == [] && n.insertCols == {} && n.updateCols == {}
  }

  /**
   A null for a column that may not be null and has a default is taken as the default: the one value that is not the
   payload's.
   */
  ghost predicate NoDefaulted(env: Env, rel: Rel, vals: map<Col, Value>) {
    forall c :: c in vals ==> !(env.hasDefault(rel, c) && env.notNull(rel, c) && vals[c] == Null)
  }

  /** The row the update statement leaves under the identity a payload row supplies. */
  ghost function Updated(env: Env, t: Table, n: Node, vals: map<Col, Value>, k: Value): Row
    requires k in t
  {
    var site := Site(n, Root);
    var temps := map[0 := TempRow(0, n.id, n.rel, None, vals, vals.Keys)];
    var res := Resolved(env, temps, map[n.rel := {n.id}], site, SetColumns(env, site) + {env.ident(n.rel)});
    UpdateTable(env, t, site, res, temps)[k]
  }

  lemma UpdatedIs(env: Env, t: Table, n: Node, vals: map<Col, Value>, k: Value)
    requires Alone(n) && k in t && NoDefaulted(env, n.rel, vals) && env.ident(n.rel) in vals
             && vals[env.ident(n.rel)] == k
    ensures Updated(env, t, n, vals, k) == t[k] + map c | c in SetColumns(env, Site(n, Root)) && c in vals :: vals[c]
  {
    hide SetColumns, Resolved, Idents;
    var site, ident := Site(n, Root), env.ident(n.rel);
    var temps := map[0 := TempRow(0, n.id, n.rel, None, vals, vals.Keys)];
    var cols := SetColumns(env, site) + {ident};
    var res := Resolved(env, temps, map[n.rel := {n.id}], site, cols);
    OneResolved(env, n, vals, cols);
    OneIdent(res, ident, k);
    assert forall c :: !KeyLinked(site, c);
    assert (map c | c in SetColumns(env, site) && (KeyLinked(site, c) || c in temps[0].mask) :: Get(res[0], c))
        == map c | c in SetColumns(env, site) && c in vals :: vals[c];
  }

  lemma OneIdent(res: map<nat, Row>, ident: Col, k: Value)
    requires res.Keys == {0} && Get(res[0], ident) == k
    ensures k in Idents(res, ident) && Pick(res, ident, k) == 0
  {
  }

  lemma OneResolved(env: Env, n: Node, vals: map<Col, Value>, cols: set<Col>)
    requires Alone(n) && NoDefaulted(env, n.rel, vals)
    ensures var temps := map[0 := TempRow(0, n.id, n.rel, None, vals, vals.Keys)];
            var res := Resolved(env, temps, map[n.rel := {n.id}], Site(n, Root), cols);
            res.Keys == {0} && forall c :: c in vals && c in cols ==> Get(res[0], c) == vals[c]
  {
    var temps := map[0 := TempRow(0, n.id, n.rel, None, vals, vals.Keys)];
    assert Sources(temps, map[n.rel := {n.id}], Site(n, Root)) == {0};
    forall c | c in vals && c in cols
      ensures ColumnValue(env, temps, map[n.rel := {n.id}], Site(n, Root), temps[0], c) == vals[c]
    {
      assert KeyChild([], c).None?;
    }
  }

  lemma SetOf(env: Env, n: Node, ex: Extractor)
    requires Alone(n) && ex in n.extractors && ex.col != env.ident(n.rel)
    ensures ex.col in SetColumns(env, Site(n, Root))
  {
    var i :| 0 <= i < |n.extractors| && n.extractors[i] == ex;
  }

  /**
   For every select, row and payload: filling the payload and running the update statement leaves the stored row that
   represents what the lens makes of the row.
   */
  lemma StatementUpdates(env: Env, n: Node, rel: Lens.Relation, e: Lens.Expr, num: Numbers, row: Lens.Row,
                         payload: Json, t: Table, k: Value)
    requires Alone(n) && Extracts(n, Lens.Met(rel, e), num) && Fill(env, n.rel, n.extractors, payload).Some?
    requires var vals := Fill(env, n.rel, n.extractors, payload).value;
             NoDefaulted(env, n.rel, vals) && env.ident(n.rel) in vals && vals[env.ident(n.rel)] == k
    requires Keyed(t, env.ident(n.rel)) && k in t && Represents(env, n.rel, num, row, t[k])
    requires forall c, d :: (c in row || exists o :: o in Lens.Met(rel, e) && o.col == c)
                            && (d in row || exists o :: o in Lens.Met(rel, e) && o.col == d) && num(c) == num(d)
                            ==> c == d
    ensures Represents(env, n.rel, num, Lens.Update(Lens.Met(rel, e), row, payload),
                       Updated(env, t, n, Fill(env, n.rel, n.extractors, payload).value, k))
  {
    hide Fill, Updated, SetColumns, Lens.Met, Lens.Update, Keyed;
    var occs, vals := Lens.Met(rel, e), Fill(env, n.rel, n.extractors, payload).value;
    var next := Lens.Update(occs, row, payload);
    UpdatedIs(env, t, n, vals, k);
    var r := Updated(env, t, n, vals, k);
    forall c | c in next ensures env.encode(n.rel, num(c), next[c]) == Some(Get(r, num(c))) {
      if exists o :: Lens.Supplies(occs, payload, o, c) {
        var o :| Lens.Supplies(occs, payload, o, c);
        ColumnSupplied(env, n, occs, num, row, payload, t, k, o, c);
      } else {
        ColumnLeft(env, n, rel, e, num, row, payload, t, k, c);
      }
    }
  }

  lemma ColumnSupplied(env: Env, n: Node, occs: seq<Lens.Occ>, num: Numbers, row: Lens.Row, payload: Json, t: Table,
                       k: Value, o: Lens.Occ, c: string)
    requires Alone(n) && Extracts(n, occs, num) && Fill(env, n.rel, n.extractors, payload).Some?
             && Lens.Supplies(occs, payload, o, c) && c in row
    requires var vals := Fill(env, n.rel, n.extractors, payload).value;
             env.ident(n.rel) in vals && vals[env.ident(n.rel)] == k
    requires Keyed(t, env.ident(n.rel)) && k in t
    ensures var vals := Fill(env, n.rel, n.extractors, payload).value;
            var r := t[k] + map d | d in SetColumns(env, Site(n, Root)) && d in vals :: vals[d];
            env.encode(n.rel, num(c), Lens.Update(occs, row, payload)[c]) == Some(Get(r, num(c)))
  {
    hide Fill, SetColumns, Lens.SuppliedValue;
    Lens.SuppliedBy(occs, payload, o, c);
    var ex := Extractor(o.path, num(c));
    assert ex in n.extractors;
    FillIs(env, n.rel, n.extractors, payload, ex);
    if num(c) != env.ident(n.rel) {
      SetOf(env, n, ex);
    } else {
      IdentNotSet(env, n);
    }
  }

  lemma IdentNotSet(env: Env, n: Node)
    ensures env.ident(n.rel) !in SetColumns(env, Site(n, Root))
  {
  }

  lemma ColumnLeft(env: Env, n: Node, rel: Lens.Relation, e: Lens.Expr, num: Numbers, row: Lens.Row, payload: Json,
                   t: Table, k: Value, c: string)
    requires Extracts(n, Lens.Met(rel, e), num) && Fill(env, n.rel, n.extractors, payload).Some? && c in row
    requires k in t && Represents(env, n.rel, num, row, t[k]) && !exists o ::
               Lens.Supplies(Lens.Met(rel, e), payload, o, c)
    requires forall x, y :: (x in row || exists o :: o in Lens.Met(rel, e) && o.col == x)
                            && (y in row || exists o :: o in Lens.Met(rel, e) && o.col == y) && num(x) == num(y)
                            ==> x == y
    ensures var vals := Fill(env, n.rel, n.extractors, payload).value;
            var r := t[k] + map d | d in SetColumns(env, Site(n, Root)) && d in vals :: vals[d];
            env.encode(n.rel, num(c), Lens.Update(Lens.Met(rel, e), row, payload)[c]) == Some(Get(r, num(c)))
  {
    hide Fill, SetColumns, Lens.Met;
    if num(c) in Fill(env, n.rel, n.extractors, payload).value {
      FilledSupplied(env, n, rel, e, num, row, payload, c);
    }
  }

  /** A filled column is one that the payload supplies. */
  lemma FilledSupplied(env: Env, n: Node, rel: Lens.Relation, e: Lens.Expr, num: Numbers, row: Lens.Row, payload: Json,
                       c: string)
    requires Extracts(n, Lens.Met(rel, e), num) && Fill(env, n.rel, n.extractors, payload).Some? && c in row
    requires num(c) in Fill(env, n.rel, n.extractors, payload).value
    requires forall x, y :: (x in row || exists o :: o in Lens.Met(rel, e) && o.col == x)
                            && (y in row || exists o :: o in Lens.Met(rel, e) && o.col == y) && num(x) == num(y)
                            ==> x == y
    ensures exists o :: Lens.Supplies(Lens.Met(rel, e), payload, o, c)
  {
    hide Fill, Lens.Met;
    var occs := Lens.Met(rel, e);
    FillOnly(env, n.rel, n.extractors, payload);
    var i :| 0 <= i < |n.extractors| && n.extractors[i].col == num(c);
    var ex := n.extractors[i];
    assert ex in n.extractors;
    var o :| Lens.IsExtractor(occs, o) && ex == Extractor(o.path, num(o.col));
    assert o in occs && o.col == c;
    FillIs(env, n.rel, n.extractors, payload, ex);
    assert Lens.Supplies(occs, payload, o, c);
  }

  /**
   Writing back through the statement what the select read leaves the stored row as it was, columns shown together
   agreeing.
   */
  lemma StatementReadBack(env: Env, n: Node, rel: Lens.Relation, e: Lens.Expr, num: Numbers, row: Lens.Row,
                          m: Lens.Meaning, t: Table, k: Value)
    requires Lens.KeysOk(rel, e) && Lens.Direct(rel, e) && Lens.Level(rel, e, row)
    requires var payload := Lens.Read(rel, e, row, m);
             && Alone(n) && Extracts(n, Lens.Met(rel, e), num) && Fill(env, n.rel, n.extractors, payload).Some?
             && var vals := Fill(env, n.rel, n.extractors, payload).value;
             NoDefaulted(env, n.rel, vals) && env.ident(n.rel) in vals && vals[env.ident(n.rel)] == k
    requires Keyed(t, env.ident(n.rel)) && k in t && Represents(env, n.rel, num, row, t[k])
    requires forall c, d :: (c in row || exists o :: o in Lens.Met(rel, e) && o.col == c)
                            && (d in row || exists o :: o in Lens.Met(rel, e) && o.col == d) && num(c) == num(d)
                            ==> c == d
    ensures Represents(env, n.rel, num, row,
                       Updated(env, t, n, Fill(env, n.rel, n.extractors, Lens.Read(rel, e, row, m)).value, k))
  {
    hide Fill, Updated, Lens.Met, Lens.Update, Keyed, Lens.Read, Represents, Extracts, NoDefaulted, Lens.Level;
    StatementUpdates(env, n, rel, e, num, row, Lens.Read(rel, e, row, m), t, k);
    Lens.ReadThenUpdateIff(rel, e, row, m);
  }
}
