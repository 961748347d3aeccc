/** Requests that the fast path and the general path of one and the same write answer differently. */
module WriteParts {
  import opened Wrappers
  import opened WriteTree
  import opened WriteStatements
  import opened WriteMerge
  import opened WriteOutcome
  import opened WriteAnswer
  import opened WriteFast
  import opened WriteReadBack

  const ID: Col := 0
  const V: Col := 1

  /** One relation with an identity and a value, neither of them with a default. */
  function Things(): Env {
    Env(_ => ID, _ => {ID, V}, (_, _) => false, (_, _) => false, (_, _) => Null,
        (_, _, j: Json) => if j.JLeaf? then Some(Datum(j.v)) else None)
  }

  function Writer(id: nat, mode: Mode): Node {
    Node(id, 0, mode, [Extractor(["id"], ID), Extractor(["v"], V)], {}, {}, ID, ID, [], [], [])
  }

  /** The first item inserts a thing with the value 10. */
  function Inserter(): Node {
    Writer(0, INSERT)
  }

  function Thing(v: int): seq<Json> {
    [JObject(map["id" := JLeaf(1), "v" := JLeaf(v)])]
  }

  function Vals(v: int): Row {
    map[ID := Datum(1), V := Datum(v)]
  }

  function Temp(id: nat, v: int): TempRow {
    TempRow(id, id, 0, None, Vals(v), {ID, V})
  }

  function Start(): Request {
    Request(0, 0, map[], State(map[], map[]))
  }

  lemma OneRow(id: nat, mode: Mode, v: int, next: nat)
    requires Flat(Writer(id, mode))
    ensures Denormalize(Things(), Writer(id, mode), Thing(v), next) == Rows([Temp(id, v).(rowId := next)])
  {
    hide Walk;
    var n, raw := Writer(id, mode), Thing(v)[0];
    FlatOne(Things(), n, raw, next);
    var exs := n.extractors;
    assert exs[..1] == [exs[0]] && exs[..1][..0] == [];
    assert Follow(raw, ["id"]) == Some(JLeaf(1)) by {
      assert ["id"][1..] == [];
    }
    assert Follow(raw, ["v"]) == Some(JLeaf(v)) by {
      assert ["v"][1..] == [];
    }
    assert Fill(Things(), 0, exs[..1], raw) == Some(map[ID := Datum(1)]);
    assert Fill(Things(), 0, exs, raw) == Some(Vals(v));
    assert Vals(v).Keys == {ID, V};
    assert Thing(v)[1..] == [];
  }

  lemma Columns2(id: nat, mode: Mode)
    ensures var site := Site(Writer(id, mode), Root);
            && InsertColumns(Things(), site) == {ID, V} && SetColumns(Things(), site) == {V}
            && KeyColumns(Things(), site) == {ID}
  {
    var n := Writer(id, mode);
    assert n.extractors[0].col == ID && n.extractors[1].col == V;
  }

  /** The one row of a node resolves to what it supplies. */
  lemma OneResolved(temps: Temps, tn: Nodes, id: nat, mode: Mode, v: int)
    requires id in temps && temps[id] == Temp(id, v) && Owns(tn, temps, Writer(id, mode)) && forall a ::
               a in temps && temps[a].node == id ==> a == id
    ensures Resolved(Things(), temps, tn, Site(Writer(id, mode), Root), {ID, V}) == map[id := Vals(v)]
  {
    var n := Writer(id, mode);
    assert Sources(temps, tn, Site(n, Root)) == {id};
    assert KeyChild([], ID).None? && KeyChild([], V).None?;
    var res := Resolved(Things(), temps, tn, Site(n, Root), {ID, V});
    assert res[id] == Vals(v);
    assert res.Keys == {id};
  }

  lemma SameBack(temps: Temps, a: nat, v: int, w: int)
    requires a in temps && temps[a].vals == Vals(v)
    ensures WriteBack(temps, map[a := Vals(w)], {ID}) == temps
  {
    assert temps[a].vals + Restrict(Vals(w), {ID}) == temps[a].vals;
  }

  lemma OneIdent(a: nat, v: int)
    ensures var res := map[a := Vals(v)];
            Idents(res, ID) == {Datum(1)} && DistinctIdents(res, ID) && Datum(1) in Idents(res, ID)
            && Pick(res, ID, Datum(1)) == a
  {
    var res := map[a := Vals(v)];
    assert Get(res[a], ID) == Datum(1);
    assert forall b :: b in res ==> b == a;
    assert Datum(1) in Idents(res, ID);
  }

  lemma Table10()
    ensures InsertNew(Things(), map[], 0, map[0 := Vals(10)]) == map[Datum(1) := Vals(10)]
  {
    OneIdent(0, 10);
    assert NewRow(Things(), 0, 0, Vals(10)) == Vals(10);
  }

  lemma Inserted10(tn: Nodes)
    requires Owns(tn, map[0 := Temp(0, 10)], Inserter())
    ensures Run(Things(), State(map[], map[0 := Temp(0, 10)]), tn, Site(Inserter(), Root))
            == Some(State(map[0 := map[Datum(1) := Vals(10)]], map[0 := Temp(0, 10)]))
  {
    hide WriteBack, Resolved, ColumnsFor, Owns, InsertNew, DistinctIdents, Idents, InsertColumns, KeyColumns;
    OneResolved(map[0 := Temp(0, 10)], tn, 0, INSERT, 10);
    Columns2(0, INSERT);
    SameBack(map[0 := Temp(0, 10)], 0, 10, 10);
    OneIdent(0, 10);
    Table10();
  }

  lemma Table20(temps: Temps, res: map<nat, Row>)
    requires res == map[1 := Vals(20)] && temps == map[0 := Temp(0, 10), 1 := Temp(1, 20)]
    ensures UpdateTable(Things(), map[Datum(1) := Vals(10)], Site(Writer(1, UPDATE_EXISTING), Root), res, temps)
            == map[Datum(1) := Vals(20)]
  {
    hide ColumnsFor;
    var site := Site(Writer(1, UPDATE_EXISTING), Root);
    Columns2(1, UPDATE_EXISTING);
    OneIdent(1, 20);
    assert Vals(10) + (map c | c in SetColumns(Things(), site) && (KeyLinked(site, c) || c in temps[1].mask) ::
                         Get(res[1], c)) == Vals(20);
  }

  lemma Updated20(tn: Nodes)
    requires Owns(tn, map[0 := Temp(0, 10), 1 := Temp(1, 20)], Writer(1, UPDATE_EXISTING))
    ensures Run(Things(), State(map[0 := map[Datum(1) := Vals(10)]], map[0 := Temp(0, 10), 1 := Temp(1, 20)]), tn,
                Site(Writer(1, UPDATE_EXISTING), Root))
            == Some(State(map[0 := map[Datum(1) := Vals(20)]], map[0 := Temp(0, 10), 1 := Temp(1, 20)]))
  {
    hide WriteBack, Resolved, ColumnsFor, Owns, UpdateTable, Idents, InsertColumns, KeyColumns, SetColumns;
    var temps, res, t := map[0 := Temp(0, 10), 1 := Temp(1, 20)], map[1 := Vals(20)], map[Datum(1) := Vals(20)];
    OneResolved(temps, tn, 1, UPDATE_EXISTING, 20);
    Columns2(1, UPDATE_EXISTING);
    SameBack(temps, 1, 20, 20);
    OneIdent(1, 20);
    Table20(temps, res);
    assert {V} + {ID} == {ID, V};
    assert UpdatedRows(t, res, ID, {V}) == res;
    assert map[0 := map[Datum(1) := Vals(10)]][0 := t] == map[0 := t];
  }

  /** The request after the insert. */
  function Second(): Request {
    Request(1, 1, map[0 := {0}], State(map[0 := map[Datum(1) := Vals(10)]], map[0 := Temp(0, 10)]))
  }

  /** The later item that sets the value to 20. */
  function Update(): Item {
    General(Writer(1, UPDATE_EXISTING), Thing(20))
  }

  /** The later item that deletes the thing. */
  function Delete(): Item {
    Remove(0, {Datum(1)})
  }

  lemma Nodes1(tn: Nodes, row: TempRow)
    requires row.rel == 0 && tn.Keys <= {0}
    ensures JoinNodes(tn, NodesOf([row])) == map[0 := NodesIn(tn, 0) + {row.node}]
  {
    var rows := [row];
    assert TableNodes(rows, 0) == {row.node} by {
      assert rows[0] == row;
    }
    assert (set i | 0 <= i < |rows| :: rows[i].rel) == {0} by {
      assert rows[0].rel == 0;
    }
  }

  lemma Numbered1(id: nat, mode: Mode)
    requires Flat(Writer(id, mode))
    ensures Numbered(Writer(id, mode), id)
  {
    assert NumberedAll([], id + 1) && CountAll([]) == 0;
  }

  lemma LoadOne(temps: Temps, row: TempRow)
    ensures Load(temps, [row]) == temps[row.rowId := row]
  {
    assert [row][..0] == [];
  }

  lemma FirstRuns()
    ensures Next(Things(), Start(), General(Inserter(), Thing(10))) == Some(Second())
  {
    hide Denormalize, Run, Load, JoinNodes, NodesOf, Next, Things;
    var n, x := Inserter(), Start();
    Numbered1(0, INSERT);
    OneRow(0, INSERT, 10, 0);
    Nodes1(map[], Temp(0, 10));
    LoadOne(map[], Temp(0, 10));
    FlatNext(Things(), x, n, Thing(10));
    OwnsFirst();
    Inserted10(map[0 := {0}]);
    assert {} + {0} == {0};
  }

  lemma OwnsFirst()
    ensures Owns(map[0 := {0}], map[0 := Temp(0, 10)], Inserter())
  {
    assert NodesIn(map[0 := {0}], 0) == {0};
  }

  lemma OwnsSecond()
    ensures Owns(map[0 := {0, 1}], map[0 := Temp(0, 10), 1 := Temp(1, 20)], Writer(1, UPDATE_EXISTING))
  {
    assert 0 in NodesIn(map[0 := {0, 1}], 0);
  }

  lemma SecondOrderly()
    ensures IsOrderly(Second())
  {
    var temps := Second().s.temps;
    forall rel, id | HasRow(temps, rel, id) ensures id in NodesIn(Second().tn, rel) {
    }
  }

  lemma SecondRuns()
    ensures Next(Things(), Second(), Update()) == Some(Request(2, 2, map[0 := {0, 1}],
              State(map[0 := map[Datum(1) := Vals(20)]], map[0 := Temp(0, 10), 1 := Temp(1, 20)])))
  {
    hide Denormalize, Run, Load, JoinNodes, NodesOf, Next, Things;
    var n, x := Writer(1, UPDATE_EXISTING), Second();
    Numbered1(1, UPDATE_EXISTING);
    OneRow(1, UPDATE_EXISTING, 20, 1);
    Nodes1(x.tn, Temp(1, 20));
    LoadOne(x.s.temps, Temp(1, 20));
    SecondOrderly();
    FlatNext(Things(), x, n, Thing(20));
    OwnsSecond();
    Updated20(map[0 := {0, 1}]);
    assert {0} + {1} == {0, 1};
    assert map[0 := Temp(0, 10)][1 := Temp(1, 20)] == map[0 := Temp(0, 10), 1 := Temp(1, 20)];
  }

  lemma DeleteRuns()
    ensures Next(Things(), Second(), Delete()) == Some(Second().(s := State(map[0 := map[]], map[0 := Temp(0, 10)])))
  {
    var t := TableOf(Second().s.db, 0);
    assert Without(t, {Datum(1)}) == map[];
    assert Second().s.db[0 := map[]] == map[0 := map[]];
  }

  lemma OneLater(it: Item, z: Request)
    requires Next(Things(), Second(), it) == Some(z)
    ensures After(Things(), Second(), [it]) == Some(z)
  {
    hide Next, Things, Second;
    assert [it][1..] == [];
  }

  lemma FirstWritable(later: seq<Item>)
    requires After(Things(), Second(), later).Some?
    ensures Writable(Things(), Start(), Inserter(), Thing(10), later)
  {
    hide Denormalize, Next, After, Load, JoinNodes, NodesOf;
    Numbered1(0, INSERT);
    OneRow(0, INSERT, 10, 0);
    FirstRuns();
  }

  /** What both paths answer to "select v" when the request ends in the state of z. */
  lemma BothAnswers(later: seq<Item>, z: Request, w: World, fastSees: Sight, generalSees: Sight)
    requires After(Things(), Second(), later) == Some(z) && Keeps(Second().s, z.s, Inserter()) && z.nextRowID > 0
    ensures Denormalize(Things(), Inserter(), Thing(10), 0).Rows?
    ensures var t := TableOf(z.s.db, 0);
            var fast := FastAnswer(Things(), Start(), Inserter(), Thing(10), ShowColumn(V, None), w, fastSees);
            var general := GeneralAnswer(Things(), Start(), Inserter(), Thing(10), later, ShowColumn(V, None), w,
                                         generalSees);
            && fast.Some? && fast.value.response == [[Datum(10)]]
            && general.Some? && general.value.response == if Datum(1) in t then [[Get(t[Datum(1)], V)]] else []
  {
    hide Denormalize, Next, After, Load, JoinNodes, NodesOf, FastWrite, GeneralWrite, Run, Holds, ReadBack, FastEnv,
         Things;
    var env, x, n, y := Things(), Start(), Inserter(), Second();
    FirstWritable(later);
    FirstRuns();
    OneRow(0, INSERT, 10, 0);
    InRequest(env, x, n, Thing(10), later);
    var b := Begun(x, [Temp(0, 10)]);
    Kept0();
    ShownBoth(env, b.s, b.tn, n, None, w, fastSees, generalSees, [Temp(0, 10)], 0, z.nextRowID, z.s, V);
    AllPass(w, generalSees, ReadBack(env, y.s, n, 0, z.nextRowID));
    AllPass(w, generalSees, ReadBack(env, z.s, n, 0, z.nextRowID));
    OneRead(y.s, z.nextRowID);
    OneRead(z.s, z.nextRowID);
  }

  lemma Kept0()
    ensures WellKept(Things(), map[], 0)
  {
  }

  /** The read-back of a state with the one temp row. */
  lemma {:induction false} OneRead(s: State, hi: nat)
    requires 0 in s.temps && s.temps[0] == Temp(0, 10) && forall a :: a in s.temps && s.temps[a].node == 0 ==> a == 0
    ensures var t := TableOf(s.db, 0);
            && ReadBack(Things(), s, Inserter(), 0, hi) == (if hi > 0 && Datum(1) in t then [t[Datum(1)]] else [])
            && Shown(if hi > 0 && Datum(1) in t then [t[Datum(1)]] else [], V)
               == if hi > 0 && Datum(1) in t then [[Get(t[Datum(1)], V)]] else []
    decreases hi
  {
    if hi > 0 {
      OneRead(s, hi - 1);
      assert Get(s.temps[0].vals, ID) == Datum(1);
    }
    assert Shown([], V) == [];
  }

  /**
   A thing is inserted and a later item of the request sets its value to 20: the fast path of the insert answers 10, the
   general path 20, though no order stands between them.
   */
  lemma LaterUpdate(w: World, fastSees: Sight, generalSees: Sight)
    ensures Writable(Things(), Start(), Inserter(), Thing(10), [Update()])
    ensures EligibleQuery(ShowColumn(V, None), Options(false, false, false, false))
    ensures Allowed(ShowColumn(V, None), GeneralOrder(ShowColumn(V, None)))
    ensures Denormalize(Things(), Inserter(), Thing(10), 0).Rows?
    ensures var fast := FastAnswer(Things(), Start(), Inserter(), Thing(10), ShowColumn(V, None), w, fastSees);
            var general := GeneralAnswer(Things(), Start(), Inserter(), Thing(10), [Update()], ShowColumn(V, None), w,
                                         generalSees);
            && fast.Some? && fast.value.response == [[Datum(10)]] && general.Some?
            && general.value.response == [[Datum(20)]]
  {
    hide Denormalize, Next, After, FastAnswer, GeneralAnswer, Writable, Things;
    SecondRuns();
    var z := Next(Things(), Second(), Update()).value;
    OneLater(Update(), z);
    FirstWritable([Update()]);
    BothAnswers([Update()], z, w, fastSees, generalSees);
  }

  /** And when the later item deletes the thing, the general path answers nothing. */
  lemma LaterDelete(w: World, fastSees: Sight, generalSees: Sight)
    ensures Writable(Things(), Start(), Inserter(), Thing(10), [Delete()])
    ensures Denormalize(Things(), Inserter(), Thing(10), 0).Rows?
    ensures var fast := FastAnswer(Things(), Start(), Inserter(), Thing(10), ShowColumn(V, None), w, fastSees);
            var general := GeneralAnswer(Things(), Start(), Inserter(), Thing(10), [Delete()], ShowColumn(V, None), w,
                                         generalSees);
            && fast.Some? && fast.value.response == [[Datum(10)]] && general.Some? && general.value.response == []
  {
    hide Denormalize, Next, After, FastAnswer, GeneralAnswer, Writable, Things;
    DeleteRuns();
    var z := Next(Things(), Second(), Delete()).value;
    OneLater(Delete(), z);
    FirstWritable([Delete()]);
    BothAnswers([Delete()], z, w, fastSees, generalSees);
  }

  /** select distinct id, without an order. */
  function DistinctId(): Query {
    Query(true, [Own(ID)], None, [], true, [], None, 0)
  }

  /** The insert alone, with a distinct response: the fast path answers it and the general path refuses it. */
  lemma DistinctInsert(w: World, fastSees: Sight, generalSees: Sight)
    ensures Writable(Things(), Start(), Inserter(), Thing(10), [])
    ensures EligibleQuery(DistinctId(), Options(false, false, false, false))
    ensures Denormalize(Things(), Inserter(), Thing(10), 0).Rows?
    ensures FastAnswer(Things(), Start(), Inserter(), Thing(10), DistinctId(), w, fastSees).Some?
    ensures GeneralAnswer(Things(), Start(), Inserter(), Thing(10), [], DistinctId(), w, generalSees).None?
  {
    hide Denormalize, Next, Load, JoinNodes, NodesOf, FastWrite, GeneralWrite, Run, Holds, FastEnv, Things;
    var env, x, n, y := Things(), Start(), Inserter(), Second();
    FirstWritable([]);
    FirstRuns();
    OneRow(0, INSERT, 10, 0);
    InRequest(env, x, n, Thing(10), []);
    var b := Begun(x, [Temp(0, 10)]);
    DistinctParts(env, b.s, b.tn, n, DistinctId(), w, fastSees, generalSees, [Temp(0, 10)], 0, y.nextRowID, y.s);
  }
}
