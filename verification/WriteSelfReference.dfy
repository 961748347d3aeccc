/**
 Categories stored in one relation, upserted with their sub-categories merged: a payload row that is also the child of
 another payload row is deleted by the merge of the children it was not listed among.
 */
module WriteSelfReference {
  import opened Wrappers
  import opened WriteTree
  import opened WriteStatements
  import opened WritePhases
  import opened WriteMerge
  import opened WriteOutcome
  import opened WriteShared
  import opened WriteSupplied

  const ID: Col := 0
  const PARENT: Col := 1

  function Catalogue(): Env {
    Env(_ => ID, _ => {ID, PARENT}, (_, _) => false, (_, _) => false, (_, _) => Null,
        (_, _, j: Json) => if j.JLeaf? then Some(Datum(j.v)) else None)
  }

  /** Categories and, under "kids", the categories they are the parent of. */
  function Tree(): Node {
    Node(0, 0, UPSERT, [Extractor(["id"], ID), Extractor(["parent"], PARENT)], {}, {}, PARENT, ID,
         [Embed("kids", true, 0)], [], [Kid()])
  }

  function Kid(): Node {
    Node(1, 0, MERGE, [Extractor(["id"], ID)], {}, {}, PARENT, ID, [], [], [])
  }

  /** Category 1 and category 2, whose parent is 1; neither says anything of its kids. */
  function Payload(): seq<Json> {
    [JObject(map["id" := JLeaf(1)]), JObject(map["id" := JLeaf(2), "parent" := JLeaf(1)])]
  }

  function First(): TempRow {
    TempRow(0, 0, 0, None, map[ID := Datum(1)], {ID})
  }

  function Second(): TempRow {
    TempRow(1, 0, 0, None, map[ID := Datum(2), PARENT := Datum(1)], {ID, PARENT})
  }

  lemma OneObject(fields: map<string, Json>, next: nat)
    requires "id" in fields && fields["id"].JLeaf? && "kids" !in fields
             && ("parent" in fields ==> fields["parent"].JLeaf?)
    ensures var own := map[ID := Datum(fields["id"].v)];
            var vals := if "parent" in fields then own[PARENT := Datum(fields["parent"].v)] else own;
            Walk(Catalogue(), Tree(), JObject(fields), None, next) == Rows([TempRow(next, 0, 0, None, vals, vals.Keys)])
  {
    var exs := Tree().extractors;
    var raw := JObject(fields);
    assert exs[..1] == [exs[0]] && exs[..1][..0] == [];
    assert Follow(raw, ["id"]) == Some(fields["id"]) by {
      assert ["id"][1..] == [];
    }
    assert Follow(raw, ["parent"]) == if "parent" in fields then Some(fields["parent"]) else None by {
      assert ["parent"][1..] == [];
    }
    assert Fill(Catalogue(), 0, exs[..1], raw) == Some(map[ID := Datum(fields["id"].v)]);
    assert WalkEmbeds(Catalogue(), Tree(), Tree().embeds, raw, next, next + 1) == Rows([]) by {
      assert Tree().embeds[1..] == [];
    }
  }

  lemma Denormalized()
    ensures Denormalize(Catalogue(), Tree(), Payload(), 0) == Rows([First(), Second()])
  {
    hide Walk, Tree, Catalogue;
    var items := Payload();
    OneObject(items[0].fields, 0);
    OneObject(items[1].fields, 1);
    assert First().mask == First().vals.Keys && Second().mask == Second().vals.Keys;
    assert Walk(Catalogue(), Tree(), items[0], None, 0) == Rows([First()]);
    assert Walk(Catalogue(), Tree(), items[1], None, 1) == Rows([Second()]);
    assert items[1..] == [items[1]] && items[1..][1..] == [];
    assert Denormalize(Catalogue(), Tree(), items[1..], 1) == Rows([Second()] + []);
  }

  /** The temp rows as loaded, the only ones of the request. */
  function Loaded(): Temps {
    Load(map[], [First(), Second()])
  }

  function Start(): State {
    State(map[], Loaded())
  }

  lemma Rows2()
    ensures Loaded() == map[0 := First(), 1 := Second()]
  {
    var rows := [First(), Second()];
    assert rows[..1] == [First()] && rows[..1][..0] == [];
    assert Load(map[], [First()]) == map[0 := First()];
  }

  lemma Sites(s: Site)
    ensures SiteIn(Tree(), Root, s) <==> s == Site(Tree(), Root) || s == Site(Kid(), In(Tree()))
  {
    assert SiteInAll([], Out(Tree()), s) == false;
    assert SiteIn(Kid(), In(Tree()), s) <==> s == Site(Kid(), In(Tree()));
    assert Tree().incoming[1..] == [];
  }

  /** The tree is one the resolver lets through, and the request is ready for its statements. */
  lemma StartReady()
    ensures Placed(Tree(), Root) && Numbered(Tree(), 0) && Ready(Tree(), Loaded(), map[0 := {0}], {0})
  {
    hide SiteIn, Load, Owns;
    var kid := Kid();
    assert PlacedAll([], Out(Tree())) && PlacedAll([], Out(kid)) && PlacedAll([], In(kid)) && PlacedAll([], In(Tree()));
    assert NumberedAll([], 1) && NumberedAll([], 2) && Numbered(kid, 1) && Tree().incoming[1..] == [];
    Rows2();
    forall s ensures SiteIn(Tree(), Root, s) <==> s == Site(Tree(), Root) || s == Site(Kid(), In(Tree())) {
      Sites(s);
    }
    assert Loaded()[0].node == 0;
    Owned();
  }

  lemma Owned()
    ensures Owns(map[0 := {0}], Loaded(), Tree()) && Owns(map[0 := {0}], Loaded(), Kid())
  {
    hide Load;
    Rows2();
    assert NodesIn(map[0 := {0}], 0) == {0};
  }

  lemma StartSettled()
    ensures Settled(Catalogue(), Tree(), map[0 := {0}], Loaded())
  {
    hide SiteIn, Load;
    Rows2();
    forall s | SiteIn(Tree(), Root, s) ensures SettledAt(Catalogue(), map[0 := {0}], s, Loaded()) {
      Sites(s);
      if s.n == Tree() {
        assert KeyColumns(Catalogue(), s) == {ID};
      }
    }
  }

  lemma Upserted()
    ensures RunUpsert(Catalogue(), Start(), map[0 := {0}], Site(Tree(), Root)).Some?
  {
    hide Load, Resolved, InsertColumns, UpsertTable, SiteIn, SettledAt, Owns;
    var env, tn, site := Catalogue(), map[0 := {0}], Site(Tree(), Root);
    var res := Resolved(env, Loaded(), tn, site, InsertColumns(env, site));
    Rows2();
    Owned();
    StartSettled();
    Sites(site);
    IdentKey(env, site);
    forall a | a in res ensures Get(res[a], ID) == Datum(a + 1) {
      SuppliedIdent(env, Loaded(), tn, site, InsertColumns(env, site), a);
    }
  }

  lemma Plan()
    ensures Plan1(Tree(), Root, {0}) == [Site(Tree(), Root)]
  {
    assert Plan1All([], Out(Tree()), {0}) == [] && Plan1(Kid(), In(Tree()), {0}) == [];
    assert Tree().incoming[1..] == [] && Plan1All([], In(Tree()), {0}) == [];
  }

  lemma StartSound()
    ensures Sound(Catalogue(), Tree(), Start(), map[0 := {0}], {0}, 0) && Apart(Catalogue(), Tree(), Loaded(), 0)
  {
    hide SiteIn, Load, Owns, Ready, Numbered, Plan1, RunUpsert, SettledAt;
    Rows2();
    StartReady();
    StartSettled();
    Upserted();
    Plan();
    OneWrite(Site(Tree(), Root));
    RunOne(Catalogue(), Start(), map[0 := {0}], Site(Tree(), Root));
    assert Loaded()[0].rowId == 0 && Loaded()[1].rowId == 1;
    forall s ensures SiteIn(Tree(), Root, s) <==> s == Site(Tree(), Root) || s == Site(Kid(), In(Tree())) {
      Sites(s);
    }
    assert RowKeys(Catalogue(), Loaded(), Kid()) == {};
  }

  /**
   The request is accepted and runs to its end, and category 2 of the payload is not in the relation: the merge outcome
   does not hold, because row 1 does not endure.
   */
  lemma RowLost()
    ensures Denormalize(Catalogue(), Tree(), Payload(), 0) == Rows([First(), Second()])
    ensures Placed(Tree(), Root) && Sound(Catalogue(), Tree(), Start(), map[0 := {0}], {0}, 0)
    ensures Exec(Catalogue(), Start(), map[0 := {0}], Queue(Tree(), {0})).Some?
    ensures var t2 := TableOf(Exec(Catalogue(), Start(), map[0 := {0}], Queue(Tree(), {0})).value.db, 0);
            && Datum(1) in t2 && Datum(2) !in t2
            && !SharedMerged(Catalogue(), Tree(), {0}, 0, map[], t2, Loaded())
  {
    hide SiteIn, Sound, Apart, Placed, Exec, Queue, SharedMerged, Denormalize, Walk, Load, TableOf;
    Denormalized();
    StartReady();
    StartSound();
    SecondGone();
    NotMerged();
  }

  lemma SecondGone()
    ensures Exec(Catalogue(), Start(), map[0 := {0}], Queue(Tree(), {0})).Some?
    ensures var t2 := TableOf(Exec(Catalogue(), Start(), map[0 := {0}], Queue(Tree(), {0})).value.db, 0);
            Datum(1) in t2 && Datum(2) !in t2
  {
    hide SiteIn, Load, Sound, Apart, Placed, Exec, Queue, Stored, KeysOf, Sources, TableOf;
    var t := Tree();
    Rows2();
    StartReady();
    StartSound();
    forall s ensures SiteIn(t, Root, s) <==> s == Site(t, Root) || s == Site(Kid(), In(t)) {
      Sites(s);
    }
    SharedWithRoot(Catalogue(), t, Start(), map[0 := {0}], {0}, 0, Kid());
    Parents();
    StoredParents(0);
    StoredParents(1);
  }

  lemma NotMerged()
    ensures Exec(Catalogue(), Start(), map[0 := {0}], Queue(Tree(), {0})).Some?
    ensures !SharedMerged(Catalogue(), Tree(), {0}, 0, map[],
                          TableOf(Exec(Catalogue(), Start(), map[0 := {0}], Queue(Tree(), {0})).value.db, 0), Loaded())
  {
    hide SiteIn, Load, Sound, Apart, Exec, Queue, Endures, SharedMerged, TableOf, Catalogue;
    var env, tn, pop, t := Catalogue(), map[0 := {0}], {0}, Tree();
    StartSound();
    SecondGone();
    RootRow();
    StaysIff(env, t, Start(), tn, pop, 0, Site(t, Root), 1);
    SharedMergedIff(env, t, Start(), tn, pop, 0, 0);
    NoTables();
  }

  lemma RootRow()
    ensures IsOwn(Loaded(), Tree(), 1) && SiteIn(Tree(), Root, Site(Tree(), Root))
            && RowKey(Catalogue(), Loaded(), Tree(), 1) == Datum(2)
  {
    hide Load;
    Rows2();
    Sites(Site(Tree(), Root));
  }

  lemma NoTables()
    ensures TableOf(Start().db, 0) == map[]
  {
  }

  lemma Parents()
    ensures KeysOf(Loaded(), Tree(), ID) == {Datum(1), Datum(2)}
  {
    hide Load;
    Rows2();
    assert Loaded()[0].node == 0 && Loaded()[1].node == 0;
  }

  lemma StoredParents(a: nat)
    requires a in Sources(Loaded(), map[0 := {0}], Site(Tree(), Root)) && a < 2
    ensures Get(Stored(Catalogue(), Start(), map[0 := {0}], Site(Tree(), Root), a), PARENT) == if a == 0 then Null
            else Datum(1)
  {
    hide Load, Sources, InsertColumns, SetColumns, ColumnValue;
    Rows2();
    var env, site := Catalogue(), Site(Tree(), Root);
    ParentValue(a);
    var r := Resolved(env, Loaded(), map[0 := {0}], site, InsertColumns(env, site))[a];
    assert r[PARENT] == if a == 0 then Null else Datum(1);
    assert PARENT in env.columns(0) + r.Keys;
  }

  lemma ParentValue(a: nat)
    requires a < 2
    ensures PARENT in InsertColumns(Catalogue(), Site(Tree(), Root)) && a in Loaded()
    ensures ColumnValue(Catalogue(), Loaded(), map[0 := {0}], Site(Tree(), Root), Loaded()[a], PARENT)
            == if a == 0 then Null else Datum(1)
  {
    hide Load;
    Rows2();
    assert Tree().extractors[1].col == PARENT;
    assert KeyChild([], PARENT).None?;
  }
}
