/**
 merge-new over both phases: which rows are there at the end, and under which identity each payload row is known. A row
 that was there stays when the payload supplies its identity; one keyed by its parent's key alone is deleted.
 */
module WriteMergeNew {
  import opened Wrappers
  import opened WriteTree
  import opened WriteStatements
  import opened WritePhases
  import opened WriteMerge
  import opened WriteOutcome
  import opened WriteShared
  import opened WriteModes

  /** The identity a payload row holds after the statement. */
  function Held(env: Env, site: Site, before: Temps, ids: map<nat, Value>, t0: Table, a: nat): Value
    requires a in before && a in ids
  {
    if ids[a] in t0 then Get(before[a].vals, env.ident(site.n.rel)) else ids[a]
  }

  lemma HeldKey(env: Env, site: Site, before: Temps, kin: Temps, after: Temps, ids: map<nat, Value>, t0: Table,
                t1: Table, a: nat)
    requires Outcome(env, site, before, kin, after, ids, t0, t1) && site.n.mode == MERGE_NEW && a in ids
    requires Keyed(t1, env.ident(site.n.rel))
    ensures Get(after[a].vals, env.ident(site.n.rel)) == Held(env, site, before, ids, t0, a)
  {
    hide Identified, TableAfter, HoldsKeys;
    var was, vals := before[a].vals, after[a].vals;
    assert Recovers(env, site, was, vals, ids[a], t0, t1);
    var k := if ids[a] !in t0 then ids[a] else Get(was, env.ident(site.n.rel));
    if HoldsKeys(env, site, was, vals, t1, k) {
      KeyThere(env, site, was, vals, t1, k);
      IdentOf(env, site, was, vals, t1, k);
    }
  }

  /**
   A payload row holds its own identity if and only if no row had it before or the payload supplied it; a row that was
   there and takes its identity from the parent or a default is not found again.
   */
  lemma HoldsIff(env: Env, site: Site, before: Temps, kin: Temps, after: Temps, ids: map<nat, Value>, t0: Table,
                 t1: Table, a: nat)
    requires Outcome(env, site, before, kin, after, ids, t0, t1) && site.n.mode == MERGE_NEW && a in ids
    requires Keyed(t1, env.ident(site.n.rel))
    ensures Get(after[a].vals, env.ident(site.n.rel)) == ids[a]
            <==> ids[a] !in t0 || Get(before[a].vals, env.ident(site.n.rel)) == ids[a]
  {
    hide Outcome;
    HeldKey(env, site, before, kin, after, ids, t0, t1, a);
  }

  /** The payload supplies the identity of a row that was there. */
  ghost predicate Supplies(env: Env, site: Site, before: Temps, ids: map<nat, Value>, t0: Table, k: Value) {
    exists a :: a in ids && a in before && ids[a] in t0 && Get(before[a].vals, env.ident(site.n.rel)) == k
  }

  /** A row stands under a parent of the payload, by the keys its rows end up with. */
  ghost predicate Under(site: Site, temps: Temps, r: Row) {
    site.link.Root? || exists p :: p in temps && temps[p].node == site.link.parent.id
                                   && Get(temps[p].vals, site.n.distant) == Get(r, site.n.local) != Null
  }

  ghost predicate MergedNew(env: Env, site: Site, before: Temps, temps: Temps, ids: map<nat, Value>, t0: Table,
                            t2: Table)
    requires ids.Keys <= before.Keys
  {
    && (forall k :: k in t2 ==> k in t0 || Among(ids, k))
    && (forall k :: k in t0 && k != Null ==> Stays(env, site, before, temps, ids, t0, t2, k))
    && forall k :: k !in t0 && Among(ids, k) ==>
         k in t2 && exists a :: a in ids && ids[a] == k && IsNew(env, site, before, temps, a, t2[k])
  }

  /** A row that was there stays, as it was, unless it is under a parent of the payload and not supplied. */
  ghost predicate Stays(env: Env, site: Site, before: Temps, temps: Temps, ids: map<nat, Value>, t0: Table, t2: Table,
                        k: Value)
    requires k in t0
  {
    && (k in t2 <==> !Under(site, temps, t0[k]) || Supplies(env, site, before, ids, t0, k))
    && (k in t2 ==> t2[k] == t0[k])
  }

  /**
   MERGE_NEW, over both phases: rows that were there are never written, and stay exactly when they are out of scope or
   the payload supplies their identity; every identity that was missing has a row of the payload, with its values,
   under its own parent; nothing else is there.
   */
  lemma MergeNewOutcome(env: Env, t: Node, s0: State, tn: Nodes, pop: set<nat>, site: Site, from: nat)
    returns (ids: map<nat, Value>)
    requires Numbered(t, from) && Ready(t, s0.temps, tn, pop) && forall a :: a in s0.temps ==> s0.temps[a].rowId == a
    requires SiteIn(t, Root, site) && OnlyWriter(t, site) && Keyed(TableOf(s0.db, site.n.rel), env.ident(site.n.rel))
    requires site.n.mode == MERGE_NEW && (site.link.Root? || site.link.parent.id in pop)
    requires Exec(env, s0, tn, Queue(t, pop)).Some?
    ensures var s2 := Exec(env, s0, tn, Queue(t, pop)).value;
            && Identified(env, site, s0.temps, s2.temps, ids) && ids.Keys <= s0.temps.Keys
            && MergedNew(env, site, s0.temps, s2.temps, ids, TableOf(s0.db, site.n.rel), TableOf(s2.db, site.n.rel))
  {
    hide SiteIn, Numbered, Exec, TableOf, OnlyWriter, Ready, Keyed, Queue, SameRows, Left, MergedNew, Outcome,
         Identified;
    var t1: Table;
    ids, t1 := ModeOutcome(env, t, s0, tn, pop, site, from);
    var s2 := Exec(env, s0, tn, Queue(t, pop)).value;
    Both(env, site, pop, s0.temps, s2.temps, ids, TableOf(s0.db, site.n.rel), t1, TableOf(s2.db, site.n.rel));
  }

  lemma Both(env: Env, site: Site, pop: set<nat>, before: Temps, temps: Temps, ids: map<nat, Value>, t0: Table,
             t1: Table, t2: Table)
    requires Outcome(env, site, before, temps, temps, ids, t0, t1) && Left(env, site, pop, temps, t1, t2)
    requires site.n.mode == MERGE_NEW && (site.link.Root? || site.link.parent.id in pop) && SameRows(before, temps)
             && Keyed(t1, env.ident(site.n.rel))
    ensures Identified(env, site, before, temps, ids) && ids.Keys <= before.Keys
    ensures MergedNew(env, site, before, temps, ids, t0, t2)
  {
    hide Identified, KeysAfter, IsNew, Erased, Keyed, SameRows, Supplies, Under, Among, Held, Outcome, Left;
    OutcomeParts(env, site, before, temps, ids, t0, t1);
    forall k | k in t2 ensures k in t0 || Among(ids, k) {
      LeftNow(env, site, pop, temps, t1, t2, k);
      assert k in t0 || Among(ids, k) || SameAt(t0, t1, k);
    }
    forall k | k in t0 && k != Null ensures Stays(env, site, before, temps, ids, t0, t2, k) {
      assert SameAt(t0, t1, k);
      LeftNow(env, site, pop, temps, t1, t2, k);
      ErasedOld(env, site, before, temps, ids, t0, t1, k);
    }
    forall k | k !in t0 && Among(ids, k)
      ensures k in t2 && exists a :: a in ids && ids[a] == k && IsNew(env, site, before, temps, a, t2[k])
    {
      LeftNow(env, site, pop, temps, t1, t2, k);
      NotErased(env, site, before, temps, ids, t0, t1, k);
    }
  }

  lemma LeftNow(env: Env, site: Site, pop: set<nat>, temps: Temps, t1: Table, t2: Table, k: Value)
    requires Left(env, site, pop, temps, t1, t2)
    ensures LeftAt(env, site, pop, temps, t1, t2, k)
  {
    hide LeftAt;
  }

  lemma OutcomeParts(env: Env, site: Site, before: Temps, temps: Temps, ids: map<nat, Value>, t0: Table, t1: Table)
    requires Outcome(env, site, before, temps, temps, ids, t0, t1) && site.n.mode == MERGE_NEW
    ensures Identified(env, site, before, temps, ids) && ids.Keys <= before.Keys && before.Keys == temps.Keys
    ensures InsertsMissing(env, site, before, temps, ids, t0, t1)
  {
    hide Identified, KeysAfter, InsertsMissing;
  }

  lemma OwnIds(env: Env, site: Site, before: Temps, temps: Temps, ids: map<nat, Value>, a: nat)
    requires Identified(env, site, before, temps, ids) && SameRows(before, temps)
    ensures a in ids <==> IsOwn(temps, site.n, a)
  {
    hide Due;
    if a in before {
      assert temps[a] == before[a].(vals := temps[a].vals);
    }
  }

  /** Phase 2 removes a row that was there if and only if it is in scope and not supplied. */
  lemma ErasedOld(env: Env, site: Site, before: Temps, temps: Temps, ids: map<nat, Value>, t0: Table, t1: Table,
                  k: Value)
    requires Outcome(env, site, before, temps, temps, ids, t0, t1) && site.n.mode == MERGE_NEW
             && SameRows(before, temps)
             && Keyed(t1, env.ident(site.n.rel))
    requires k in t0 && k != Null
    ensures Erased(env, temps, site, k, t0[k])
            <==> Under(site, temps, t0[k]) && !Supplies(env, site, before, ids, t0, k)
  {
    hide KeysAfter, TableAfter, SameRows, Keyed, Identified;
    forall a | IsOwn(temps, site.n, a) ensures a in ids && a in before
                                               && Get(temps[a].vals, env.ident(site.n.rel))
                                                  == Held(env, site, before, ids, t0, a)
    {
      OwnIds(env, site, before, temps, ids, a);
      HeldKey(env, site, before, temps, temps, ids, t0, t1, a);
    }
    if a :| a in ids && a in before && ids[a] in t0 && Get(before[a].vals, env.ident(site.n.rel)) == k {
      OwnIds(env, site, before, temps, ids, a);
      assert IsOwn(temps, site.n, a) && Get(temps[a].vals, env.ident(site.n.rel)) == k;
    }
  }

  lemma NotErased(env: Env, site: Site, before: Temps, temps: Temps, ids: map<nat, Value>, t0: Table, t1: Table,
                  k: Value)
    requires Outcome(env, site, before, temps, temps, ids, t0, t1) && site.n.mode == MERGE_NEW
             && SameRows(before, temps)
             && Keyed(t1, env.ident(site.n.rel))
    requires k !in t0 && Among(ids, k) && k in t1
    ensures !Erased(env, temps, site, k, t1[k])
  {
    hide KeysAfter, SameRows, Keyed, Identified, IsNew;
    var a :| a in ids && ids[a] == k;
    OwnIds(env, site, before, temps, ids, a);
    HeldKey(env, site, before, temps, temps, ids, t0, t1, a);
    assert IsOwn(temps, site.n, a) && Get(temps[a].vals, env.ident(site.n.rel)) == k;
  }

  /**
   Rows keyed by their parent's key: one that was there and is in the payload, without its identity, is deleted,
   though the mode says to ignore it.
   */
  lemma KeyedByParent(env: Env, t: Node, s0: State, tn: Nodes, pop: set<nat>, site: Site, from: nat, a: nat, k: Value)
    requires Numbered(t, from) && Ready(t, s0.temps, tn, pop) && forall b :: b in s0.temps ==> s0.temps[b].rowId == b
    requires SiteIn(t, Root, site) && OnlyWriter(t, site) && Keyed(TableOf(s0.db, site.n.rel), env.ident(site.n.rel))
    requires site.n.mode == MERGE_NEW && site.link.In? && site.n.local == env.ident(site.n.rel)
             && site.link.parent.id in pop
    requires Exec(env, s0, tn, Queue(t, pop)).Some? && IsOwn(s0.temps, site.n, a)
    requires forall b :: IsOwn(s0.temps, site.n, b) ==> Get(s0.temps[b].vals, env.ident(site.n.rel)) != k
    requires k != Null && k in TableOf(s0.db, site.n.rel)
    requires var temps := Exec(env, s0, tn, Queue(t, pop)).value.temps;
             s0.temps[a].parent.Some? && s0.temps[a].parent.value in temps
             && temps[s0.temps[a].parent.value].node == site.link.parent.id
             && Get(temps[s0.temps[a].parent.value].vals, site.n.distant) == k
    ensures k !in TableOf(Exec(env, s0, tn, Queue(t, pop)).value.db, site.n.rel)
  {
    hide SiteIn, Numbered, Exec, TableOf, OnlyWriter, Ready, Keyed, Queue, SameRows, IsNew, Identified;
    var ids := MergeNewOutcome(env, t, s0, tn, pop, site, from);
    var s2 := Exec(env, s0, tn, Queue(t, pop)).value;
    var t0 := TableOf(s0.db, site.n.rel);
    assert Get(t0[k], site.n.local) == k by { KeyedAt(t0, env.ident(site.n.rel), k); }
    assert Under(site, s2.temps, t0[k]) by {
      var p := s0.temps[a].parent.value;
      assert p in s2.temps && Get(s2.temps[p].vals, site.n.distant) == k;
    }
    forall b | b in ids && b in s0.temps ensures IsOwn(s0.temps, site.n, b) {
      IdsOwn(env, site, s0.temps, s2.temps, ids, b);
    }
    assert !Supplies(env, site, s0.temps, ids, t0, k);
    assert Stays(env, site, s0.temps, s2.temps, ids, t0, TableOf(s2.db, site.n.rel), k);
  }

  lemma KeyedAt(t: Table, ident: Col, k: Value)
    requires Keyed(t, ident) && k in t
    ensures Get(t[k], ident) == k
  {
  }

  lemma IdsOwn(env: Env, site: Site, before: Temps, kin: Temps, ids: map<nat, Value>, b: nat)
    requires Identified(env, site, before, kin, ids) && b in ids
    ensures IsOwn(before, site.n, b)
  {
    hide Due;
  }

  // ---- users and their profiles -----------------------------------------------------------------------------------

  /** Two relations whose identity is column 0; column 1 is a note. */
  function Accounts(): Env {
    Env(_ => 0, _ => {0, 1}, (_, _) => false, (_, _) => false, (_, _) => Null,
        (_, _, j: Json) => if j.JLeaf? then Some(Datum(j.v)) else None)
  }

  /** Users with, under "profile", the row of another relation that has the user's id as its own. */
  function User(): Node {
    Node(0, 0, UPSERT, [Extractor(["id"], 0)], {}, {}, 0, 0, [Embed("profile", true, 0)], [], [Profile()])
  }

  function Profile(): Node {
    Node(1, 1, MERGE_NEW, [Extractor(["note"], 1)], {}, {}, 0, 0, [], [], [])
  }

  /** User 1 with a profile whose note is 9, as loaded: the profile does not repeat the id. */
  function Loaded(): Temps {
    map[0 := TempRow(0, 0, 0, None, map[0 := Datum(1)], {0}),
        1 := TempRow(1, 1, 1, Some(0), map[1 := Datum(9)], {1})]
  }

  function Payload(): seq<Json> {
    [JObject(map["id" := JLeaf(1), "profile" := JArray([JObject(map["note" := JLeaf(9)])])])]
  }

  lemma OneFill(rel: Rel, key: string, c: Col, fields: map<string, Json>, v: int)
    requires key in fields && fields[key] == JLeaf(v)
    ensures Fill(Accounts(), rel, [Extractor([key], c)], JObject(fields)) == Some(map[c := Datum(v)])
  {
    var exs := [Extractor([key], c)];
    assert exs[..0] == [] && [key][1..] == [];
    assert Follow(JObject(fields), [key]) == Some(JLeaf(v));
  }

  /** The rows of the payload, loaded, are the temp rows. */
  lemma Payload2()
    ensures Denormalize(Accounts(), User(), Payload(), 0) == Rows([Loaded()[0], Loaded()[1]])
    ensures Load(map[], [Loaded()[0], Loaded()[1]]) == Loaded()
  {
    hide Fill;
    var env, raw := Accounts(), Payload()[0];
    var kids := raw.fields["profile"].items;
    OneFill(0, "id", 0, raw.fields, 1);
    OneFill(1, "note", 1, kids[0].fields, 9);
    assert WalkEmbeds(env, Profile(), [], kids[0], 1, 2) == Rows([]);
    assert Loaded()[0].mask == Loaded()[0].vals.Keys && Loaded()[1].mask == Loaded()[1].vals.Keys;
    assert Walk(env, Profile(), kids[0], Some(0), 1) == Rows([Loaded()[1]]);
    assert kids[1..] == [] && WalkItems(env, Profile(), [], 0, 2) == Rows([]);
    assert WalkItems(env, Profile(), kids, 0, 1) == Rows([Loaded()[1]]);
    assert User().embeds[1..] == [] && WalkEmbeds(env, User(), [], raw, 0, 2) == Rows([]);
    assert WalkEmbeds(env, User(), User().embeds, raw, 0, 1) == Rows([Loaded()[1]]);
    assert Payload()[1..] == [];
    assert Denormalize(env, User(), [], 2) == Rows([]);
    var rows := [Loaded()[0], Loaded()[1]];
    assert rows[..1] == [Loaded()[0]] && rows[..1][..0] == [] && Load(map[], []) == map[];
    assert Load(map[], rows[..1]) == map[0 := Loaded()[0]];
  }

  function Before(): State {
    State(map[0 := map[Datum(1) := map[0 := Datum(1)]],
              1 := map[Datum(1) := map[0 := Datum(1), 1 := Datum(5)]]], Loaded())
  }

  function NodesOf2(): Nodes {
    map[0 := {0}, 1 := {1}]
  }

  lemma Sites2(s: Site)
    ensures SiteIn(User(), Root, s) <==> s == Site(User(), Root) || s == Site(Profile(), In(User()))
  {
    assert SiteInAll([], Out(User()), s) == false;
    assert SiteIn(Profile(), In(User()), s) <==> s == Site(Profile(), In(User()));
    assert User().incoming[1..] == [];
  }

  lemma Owned2()
    ensures Owns(NodesOf2(), Loaded(), User()) && Owns(NodesOf2(), Loaded(), Profile())
  {
    assert NodesIn(NodesOf2(), 0) == {0} && NodesIn(NodesOf2(), 1) == {1};
  }

  lemma Ready2()
    ensures Placed(User(), Root) && Numbered(User(), 0) && Ready(User(), Loaded(), NodesOf2(), {0, 1})
  {
    hide SiteIn, Owns;
    var p := Profile();
    assert PlacedAll([], Out(User())) && PlacedAll([], Out(p)) && PlacedAll([], In(p)) && PlacedAll([], In(User()));
    assert NumberedAll([], 1) && NumberedAll([], 2) && Numbered(p, 1) && User().incoming[1..] == [];
    forall s ensures SiteIn(User(), Root, s) <==> s == Site(User(), Root) || s == Site(Profile(), In(User())) {
      Sites2(s);
    }
    assert Loaded()[0].node == 0 && Loaded()[1].node == 1;
    Owned2();
  }

  lemma Plans2()
    ensures Plan1(User(), Root, {0, 1}) == [Site(User(), Root), Site(Profile(), In(User()))]
    ensures Plan2(User(), Root, {0, 1}) == [Site(Profile(), In(User()))]
  {
    var p := Profile();
    assert Plan1All([], Out(User()), {0, 1}) == [] && Plan1All([], In(User()), {0, 1}) == [];
    assert Plan1All([], Out(p), {0, 1}) == [] && Plan1All([], In(p), {0, 1}) == [];
    assert Plan2All([], Out(User()), {0, 1}) == [] && Plan2All([], In(User()), {0, 1}) == [];
    assert Plan2All([], Out(p), {0, 1}) == [] && Plan2All([], In(p), {0, 1}) == [];
    assert User().incoming[1..] == [];
    assert Plan1(p, In(User()), {0, 1}) == [Site(p, In(User()))];
    assert Plan2(p, In(User()), {0, 1}) == [Site(p, In(User()))];
  }

  /** The user's own statement hands its id back. */
  lemma UserRuns() returns (s: State)
    ensures Run(Accounts(), Before(), NodesOf2(), Site(User(), Root)) == Some(s)
    ensures SameRows(Loaded(), s.temps) && s.temps[1] == Loaded()[1] && Get(s.temps[0].vals, 0) == Datum(1)
    ensures TableOf(s.db, 1) == TableOf(Before().db, 1)
  {
    hide Run, Owns, Refuses, TableAfter, KeysAfter, HoldsKeys;
    var site := Site(User(), Root);
    var t0 := TableOf(Before().db, 0);
    Owned2();
    assert Joinable(Loaded(), NodesOf2(), site);
    var ids := StatementOutcome(Accounts(), Before(), NodesOf2(), site);
    assert IsOwn(Loaded(), User(), 0) && ids.Keys == {0};
    assert ids[0] == Datum(1);
    assert !Refuses(Accounts(), site, ids, t0) by { Unique(Accounts(), site, ids, t0); }
    assert !OutgoingRead(site);
    s := Run(Accounts(), Before(), NodesOf2(), site).value;
    RunFrame(Accounts(), Before(), NodesOf2(), site);
    RunGrows(Accounts(), Before(), NodesOf2(), site, 0);
    UserKey(site, ids, Loaded(), s.temps, t0, TableOf(s.db, 0));
  }

  lemma Unique(env: Env, site: Site, ids: map<nat, Value>, t0: Table)
    requires ids.Keys == {0} && ids[0] != Null && site.n.mode == UPSERT
    ensures !Refuses(env, site, ids, t0)
  {
  }

  lemma UserKey(site: Site, ids: map<nat, Value>, before: Temps, after: Temps, t0: Table, t1: Table)
    requires site == Site(User(), Root) && ids.Keys == {0} <= before.Keys && before.Keys == after.Keys
             && ids[0] == Datum(1)
    requires KeysAfter(Accounts(), site, before, after, ids, t0, t1) && Keyed(t1, 0)
    ensures Get(after[0].vals, 0) == Datum(1)
  {
    hide HoldsKeys;
    assert HoldsKeys(Accounts(), site, before[0].vals, after[0].vals, t1, ids[0]);
    KeyThere(Accounts(), site, before[0].vals, after[0].vals, t1, ids[0]);
    IdentOf(Accounts(), site, before[0].vals, after[0].vals, t1, ids[0]);
  }

  /** The profile comes to the key of its user. */
  lemma ProfileIds(s: State, ids: map<nat, Value>)
    requires SameRows(Loaded(), s.temps) && s.temps[1] == Loaded()[1] && Get(s.temps[0].vals, 0) == Datum(1)
    requires Identified(Accounts(), Site(Profile(), In(User())), s.temps, s.temps, ids)
    ensures ids.Keys == {1} && ids[1] == Datum(1)
  {
    assert s.temps[0] == Loaded()[0].(vals := s.temps[0].vals);
    assert IsOwn(s.temps, Profile(), 1) && !IsOwn(s.temps, Profile(), 0);
    assert forall a :: a in ids <==> a == 1;
  }

  lemma ProfileJoins(s: State)
    requires SameRows(Loaded(), s.temps) && s.temps[1] == Loaded()[1]
    ensures Joinable(s.temps, NodesOf2(), Site(Profile(), In(User())))
    ensures ChildrenOwned(s.temps, NodesOf2(), Site(Profile(), In(User()))) && Owns(NodesOf2(), s.temps, Profile())
  {
    hide Owns;
    Owned2();
    SameRowsOwn(NodesOf2(), Loaded(), s.temps, Profile());
    assert s.temps[0] == Loaded()[0].(vals := s.temps[0].vals);
  }

  lemma ProfileKeyed()
    ensures Keyed(TableOf(Before().db, 1), 0)
  {
  }

  /** The profile's takes the user's id, finds a row, and leaves it. */
  lemma ProfileRuns(s: State) returns (s': State)
    requires SameRows(Loaded(), s.temps) && s.temps[1] == Loaded()[1] && Get(s.temps[0].vals, 0) == Datum(1)
    requires TableOf(s.db, 1) == TableOf(Before().db, 1)
    ensures Run(Accounts(), s, NodesOf2(), Site(Profile(), In(User()))) == Some(s')
    ensures s'.temps.Keys == {0, 1} && s'.temps[0] == s.temps[0]
  {
    hide Run, Owns, Refuses, Outcome, Identified, Joinable, ChildrenOwned, Keyed, Before, TableOf;
    var site := Site(Profile(), In(User()));
    ProfileJoins(s);
    ProfileKeyed();
    var ids := StatementOutcome(Accounts(), s, NodesOf2(), site);
    ProfileIds(s, ids);
    NotNamed2(Accounts(), site, ids, TableOf(s.db, 1));
    assert !OutgoingRead(site);
    s' := Run(Accounts(), s, NodesOf2(), site).value;
    RunFrame(Accounts(), s, NodesOf2(), site);
  }

  lemma NotNamed2(env: Env, site: Site, ids: map<nat, Value>, t0: Table)
    requires ids.Keys == {1} && ids[1] != Null && site.n.mode == MERGE_NEW
    ensures !Refuses(env, site, ids, t0)
  {
  }

  lemma BothRun()
    ensures var r := Exec(Accounts(), Before(), NodesOf2(), Queue(User(), {0, 1}));
            r.Some? && r.value.temps.Keys == {0, 1} && Get(r.value.temps[0].vals, 0) == Datum(1)
            && r.value.temps[0].node == 0
  {
    hide Run, Owns, Ready, SiteIn, Plan1, Plan2, Numbered, Placed, Exec, Queue, AllSpare, Writes;
    Ready2();
    Plans2();
    var sA := UserRuns();
    var sB := ProfileRuns(sA);
    TwoWrites(Accounts(), Before(), NodesOf2(), Site(User(), Root), Site(Profile(), In(User())));
    QueueSplit(Accounts(), User(), Before(), NodesOf2(), {0, 1}, 1, Datum(1));
  }

  /** User 1 and profile 1 are there; writing both back, the profile by its note alone, the profile is deleted. */
  lemma ProfileLost()
    ensures Placed(User(), Root) && Numbered(User(), 0) && Ready(User(), Loaded(), NodesOf2(), {0, 1})
    ensures Denormalize(Accounts(), User(), Payload(), 0) == Rows([Loaded()[0], Loaded()[1]])
    ensures Datum(1) in TableOf(Before().db, 1)
    ensures var r := Exec(Accounts(), Before(), NodesOf2(), Queue(User(), {0, 1}));
            r.Some? && Datum(1) !in TableOf(r.value.db, 1)
  {
    hide Run, Owns, Ready, SiteIn, Plan1, Plan2, Numbered, Placed, Denormalize;
    var env, tn, tree, pop := Accounts(), NodesOf2(), User(), {0, 1};
    var site := Site(Profile(), In(tree));
    Ready2();
    Payload2();
    BothRun();
    Sites2(site);
    forall s | SiteIn(tree, Root, s) && s.n.rel == 1 ensures s == site {
      Sites2(s);
    }
    KeyedByParent(env, tree, Before(), tn, pop, site, 0, 1, Datum(1));
  }

  lemma TwoWrites(env: Env, s: State, tn: Nodes, a: Site, b: Site)
    ensures Exec(env, s, tn, Writes([a, b]))
            == var r := Run(env, s, tn, a); if r.None? then None else Run(env, r.value, tn, b)
  {
    hide Run, Writes, Exec;
    assert Writes([a, b]) == [Write(a)] + [Write(b)];
    ExecSplit(env, s, tn, [Write(a)], [Write(b)]);
    RunOne(env, s, tn, a);
    var r := Run(env, s, tn, a);
    if r.Some? {
      RunOne(env, r.value, tn, b);
    }
  }
}
