/**
 The structure table of query/result_cbor.go, shared by every item of a response: it gives each list of
 field names an id, and remembers which ids have had their definition written.
 */
module Structures {
  import opened Bytes
  import opened CborItem
  import opened CborEncode
  import opened CborDoc
  import opened CborRoundTrip

  type Names = seq<seq<byte>>

  /** The names with a NUL byte between each and the next: the key of the table. */
  function Join(names: Names): seq<byte> {
    if names == [] then []
    else if |names| == 1 then names[0]
    else names[0] + [0] + Join(names[1..])
  }

  ghost predicate NulFree(names: Names) {
    names != [] && forall i :: 0 <= i < |names| ==> 0 !in names[i]
  }

  lemma {:induction false} JoinNul(a: Names)
    requires NulFree(a)
    ensures 0 in Join(a) <==> |a| > 1
  {
    if |a| > 1 {
      assert Join(a)[|a[0]|] == 0;
    }
  }

  /** Lists of NUL-free names, at least one of them, never share a key. */
  lemma {:induction false} JoinInjective(a: Names, b: Names)
    requires NulFree(a) && NulFree(b) && Join(a) == Join(b)
    ensures a == b
  {
    JoinNul(a);
    JoinNul(b);
    if |a| > 1 {
      FirstNul(a[0], Join(a[1..]));
      FirstNul(b[0], Join(b[1..]));
      assert Join(a)[..|a[0]|] == a[0] && Join(b)[..|b[0]|] == b[0];
      assert Join(a)[|a[0]| + 1..] == Join(a[1..]) && Join(b)[|b[0]| + 1..] == Join(b[1..]);
      JoinInjective(a[1..], b[1..]);
      assert a == [a[0]] + a[1..] && b == [b[0]] + b[1..];
    }
  }

  lemma FirstNul(x: seq<byte>, xs: seq<byte>)
    requires 0 !in x
    ensures var s := x + [0] + xs; s[|x|] == 0 && forall i :: 0 <= i < |x| ==> s[i] != 0
  {
    forall i | 0 <= i < |x| ensures (x + [0] + xs)[i] != 0 {
      assert (x + [0] + xs)[i] == x[i];
    }
  }

  /** The key does collide otherwise: a NUL inside a name, and the empty list against the empty name. */
  lemma JoinCollides(x: seq<byte>, y: seq<byte>)
    ensures Join([x, y]) == Join([x + [0] + y]) && [x, y] != [x + [0] + y]
    ensures Join([]) == Join([[]])
  {
    assert [x, y][1..] == [y];
  }

  // ---- the plan of a select ---------------------------------------------------------------------------------

  /** The records a select answers with: the names of its fields, and the records of its embedded children. */
  datatype Layout = Scalar | Layout(names: Names, children: seq<Layout>)

  /** A record plan: the same with the id each list of names was given, -1 when there was none left. */
  datatype Plan = NoPlan | Plan(id: int, names: Names, children: seq<Plan>)

  /** Every list of names of a select has a key of its own. */
  ghost predicate CleanLayout(l: Layout)
    decreases l, 0
  {
    l.Scalar? || (NulFree(l.names) && |l.children| == |l.names| && CleanAll(l.children))
  }

  ghost predicate CleanAll(ls: seq<Layout>)
    decreases ls, 0
  {
    ls == [] || (CleanLayout(ls[0]) && CleanAll(ls[1..]))
  }

  /** The plan of a layout: the same names and children. */
  ghost predicate PlanOf(p: Plan, l: Layout)
    decreases l, 0
  {
    if l.Scalar? then p.NoPlan? else p.Plan? && p.names == l.names && PlansOf(p.children, l.children)
  }

  ghost predicate PlansOf(ps: seq<Plan>, ls: seq<Layout>)
    decreases ls, 0
  {
    |ps| == |ls| && (ls == [] || (PlanOf(ps[0], ls[0]) && PlansOf(ps[1..], ls[1..])))
  }

  /** Each id of a plan stands for its own list of names. */
  ghost predicate Holds(p: Plan, names: seq<Names>)
    decreases p, 0
  {
    p.NoPlan? || ((p.id >= 0 ==> p.id < |names| && names[p.id] == p.names) && HoldAll(p.children, names))
  }

  ghost predicate HoldAll(ps: seq<Plan>, names: seq<Names>)
    decreases ps, 0
  {
    ps == [] || (Holds(ps[0], names) && HoldAll(ps[1..], names))
  }

  /** Every record of a plan has an id, as long as there are ids left to give. */
  ghost predicate Given(p: Plan, names: seq<Names>)
    decreases p, 0
  {
    p.NoPlan? || ((p.id < 0 ==> |names| >= 0x1fff) && AllGiven(p.children, names))
  }

  ghost predicate AllGiven(ps: seq<Plan>, names: seq<Names>)
    decreases ps, 0
  {
    ps == [] || (Given(ps[0], names) && AllGiven(ps[1..], names))
  }

  lemma {:induction false} GivenStays(p: Plan, names: seq<Names>, more: seq<Names>)
    requires Given(p, names) && names <= more
    ensures Given(p, more)
    decreases p, 0
  {
    if p.Plan? {
      AllGivenStay(p.children, names, more);
    }
  }

  lemma {:induction false} AllGivenStay(ps: seq<Plan>, names: seq<Names>, more: seq<Names>)
    requires AllGiven(ps, names) && names <= more
    ensures AllGiven(ps, more)
    decreases ps, 0
  {
    if ps != [] {
      GivenStays(ps[0], names, more);
      AllGivenStay(ps[1..], names, more);
    }
  }

  lemma {:induction false} HoldsStay(p: Plan, names: seq<Names>, more: seq<Names>)
    requires Holds(p, names) && names <= more
    ensures Holds(p, more)
    decreases p, 0
  {
    if p.Plan? {
      HoldAllStay(p.children, names, more);
    }
  }

  lemma {:induction false} HoldAllStay(ps: seq<Plan>, names: seq<Names>, more: seq<Names>)
    requires HoldAll(ps, names) && names <= more
    ensures HoldAll(ps, more)
    decreases ps, 0
  {
    if ps != [] {
      HoldsStay(ps[0], names, more);
      HoldAllStay(ps[1..], names, more);
    }
  }

  /**
   A record as its plan writes it: its id and names, and in its fields null, records of a child's plan, or lists of
   them.
   */
  ghost predicate Follows(d: Doc, p: Plan)
    decreases d, 0
  {
    p.Plan? && d.DRec? && d.id == p.id && d.keys == p.names && |d.values| == |p.children|
    && FollowAll(d.values, p.children)
  }

  ghost predicate FollowAll(ds: seq<Doc>, ps: seq<Plan>)
    requires |ds| == |ps|
    decreases ds, 0
  {
    ds == [] || ((if ps[0].NoPlan? then Planned(ds[0], []) else FollowsChild(ds[0], ps[0]))
                 && FollowAll(ds[1..], ps[1..]))
  }

  ghost predicate FollowsChild(d: Doc, p: Plan)
    decreases d, 1
  {
    d.DNull? || Follows(d, p) || (d.DArr? && FollowEach(d.items, p))
  }

  ghost predicate FollowEach(ds: seq<Doc>, p: Plan)
    decreases ds, 0
  {
    ds == [] || (Follows(ds[0], p) && FollowEach(ds[1..], p))
  }

  /** What a plan writes, the table it holds in serves. */
  lemma {:induction false} FollowsPlanned(d: Doc, p: Plan, names: seq<Names>)
    requires Follows(d, p) && Holds(p, names)
    ensures Planned(d, names)
    decreases d, 0
  {
    FollowAllPlanned(d.values, p.children, names);
  }

  lemma {:induction false} FollowAllPlanned(ds: seq<Doc>, ps: seq<Plan>, names: seq<Names>)
    requires |ds| == |ps| && FollowAll(ds, ps) && HoldAll(ps, names)
    ensures PlannedAll(ds, names)
    decreases ds, 0
  {
    if ds != [] {
      if ps[0].NoPlan? {
        PlannedMore(ds[0], names);
      } else if Follows(ds[0], ps[0]) {
        FollowsPlanned(ds[0], ps[0], names);
      } else if ds[0].DArr? {
        FollowEachPlanned(ds[0].items, ps[0], names);
      }
      FollowAllPlanned(ds[1..], ps[1..], names);
    }
  }

  lemma {:induction false} FollowEachPlanned(ds: seq<Doc>, p: Plan, names: seq<Names>)
    requires FollowEach(ds, p) && Holds(p, names)
    ensures PlannedAll(ds, names)
    decreases ds, 0
  {
    if ds != [] {
      FollowsPlanned(ds[0], p, names);
      FollowEachPlanned(ds[1..], p, names);
    }
  }

  lemma {:induction false} PlannedMore(d: Doc, names: seq<Names>)
    requires Planned(d, [])
    ensures Planned(d, names)
    decreases d, 0
  {
    match d
    case DArr(_, items) => PlannedAllMore(items, names);
    case DMap(_, _, values) => PlannedAllMore(values, names);
    case DRec(_, _, values) => PlannedAllMore(values, names);
    case _ =>
  }

  lemma {:induction false} PlannedAllMore(ds: seq<Doc>, names: seq<Names>)
    requires PlannedAll(ds, [])
    ensures PlannedAll(ds, names)
    decreases ds, 0
  {
    if ds != [] {
      PlannedMore(ds[0], names);
      PlannedAllMore(ds[1..], names);
    }
  }

  // ---- rows, and the plan they are written by -----------------------------------------------------------------

  /**
   A value as a layout has it: null, a record of its names, or a list of them; anything without records for a scalar.
   */
  ghost predicate Laid(d: Doc, l: Layout)
    decreases d, 1
  {
    if l.Scalar? then Planned(d, []) else d.DNull? || LaidRecord(d, l) || (d.DArr? && LaidEach(d.items, l))
  }

  ghost predicate LaidRecord(d: Doc, l: Layout)
    requires l.Layout?
    decreases d, 0
  {
    d.DRec? && d.keys == l.names && |d.values| == |l.children| && LaidAll(d.values, l.children)
  }

  ghost predicate LaidEach(ds: seq<Doc>, l: Layout)
    requires l.Layout?
    decreases ds, 0
  {
    ds == [] || (LaidRecord(ds[0], l) && LaidEach(ds[1..], l))
  }

  ghost predicate LaidAll(ds: seq<Doc>, ls: seq<Layout>)
    requires |ds| == |ls|
    decreases ds, 0
  {
    ds == [] || (Laid(ds[0], ls[0]) && LaidAll(ds[1..], ls[1..]))
  }

  /** The value with the ids of a plan on its records. */
  function Put(d: Doc, p: Plan): Doc
    decreases d, 0
  {
    if p.NoPlan? then d
    else
      match d
      case DArr(indef, items) => DArr(indef, PutEach(items, p))
      case DRec(_, keys, values) => if |values| == |p.children| then DRec(p.id, keys, PutAll(values, p.children)) else d
      case _ => d
  }

  function PutEach(ds: seq<Doc>, p: Plan): (rs: seq<Doc>)
    ensures |rs| == |ds|
    decreases ds, 0
  {
    if ds == [] then [] else [Put(ds[0], p)] + PutEach(ds[1..], p)
  }

  function PutAll(ds: seq<Doc>, ps: seq<Plan>): (rs: seq<Doc>)
    requires |ds| == |ps|
    ensures |rs| == |ds|
    decreases ds, 0
  {
    if ds == [] then [] else [Put(ds[0], ps[0])] + PutAll(ds[1..], ps[1..])
  }

  lemma {:induction false} PutFollows(d: Doc, p: Plan, l: Layout)
    requires l.Layout? && LaidRecord(d, l) && PlanOf(p, l)
    ensures Follows(Put(d, p), p)
    decreases d, 0
  {
    PlanLengths(p.children, l.children);
    PutAllFollow(d.values, p.children, l.children);
  }

  lemma {:induction false} PutEachFollow(ds: seq<Doc>, p: Plan, l: Layout)
    requires l.Layout? && LaidEach(ds, l) && PlanOf(p, l)
    ensures FollowEach(PutEach(ds, p), p)
    decreases ds, 0
  {
    if ds != [] {
      PutFollows(ds[0], p, l);
      PutEachFollow(ds[1..], p, l);
      assert PutEach(ds, p)[1..] == PutEach(ds[1..], p);
    }
  }

  lemma {:induction false} PutAllFollow(ds: seq<Doc>, ps: seq<Plan>, ls: seq<Layout>)
    requires |ds| == |ls| == |ps| && LaidAll(ds, ls) && PlansOf(ps, ls)
    ensures FollowAll(PutAll(ds, ps), ps)
    decreases ds, 0
  {
    if ds != [] {
      if ls[0].Layout? {
        if ds[0].DArr? && LaidEach(ds[0].items, ls[0]) {
          PutEachFollow(ds[0].items, ps[0], ls[0]);
        } else if !ds[0].DNull? {
          PutFollows(ds[0], ps[0], ls[0]);
        }
      }
      PutAllFollow(ds[1..], ps[1..], ls[1..]);
      assert PutAll(ds, ps)[1..] == PutAll(ds[1..], ps[1..]);
    }
  }

  lemma PlanLengths(ps: seq<Plan>, ls: seq<Layout>)
    requires PlansOf(ps, ls)
    ensures |ps| == |ls|
  {
  }

  /** The ids change nothing else. */
  lemma {:induction false} PutMaps(d: Doc, p: Plan)
    ensures AsMaps(Put(d, p)) == AsMaps(d)
    decreases d, 0
  {
    if p.Plan? {
      if d.DArr? {
        PutEachMaps(d.items, p);
      } else if d.DRec? && |d.values| == |p.children| {
        PutAllMaps(d.values, p.children);
      }
    }
  }

  lemma {:induction false} PutEachMaps(ds: seq<Doc>, p: Plan)
    ensures AsMapsAll(PutEach(ds, p)) == AsMapsAll(ds)
    decreases ds, 0
  {
    if ds != [] {
      PutMaps(ds[0], p);
      PutEachMaps(ds[1..], p);
      assert PutEach(ds, p)[1..] == PutEach(ds[1..], p);
    }
  }

  lemma {:induction false} PutAllMaps(ds: seq<Doc>, ps: seq<Plan>)
    requires |ds| == |ps|
    ensures AsMapsAll(PutAll(ds, ps)) == AsMapsAll(ds)
    decreases ds, 0
  {
    if ds != [] {
      PutMaps(ds[0], ps[0]);
      PutAllMaps(ds[1..], ps[1..]);
      assert PutAll(ds, ps)[1..] == PutAll(ds[1..], ps[1..]);
    }
  }

  lemma {:induction false} PutTyped(d: Doc, p: Plan, names: seq<Names>)
    requires Typed(d) && Holds(p, names) && |names| <= MAX_STRUCTURES
    ensures Typed(Put(d, p))
    decreases d, 0
  {
    if p.Plan? {
      if d.DArr? {
        PutEachTyped(d.items, p, names);
      } else if d.DRec? && |d.values| == |p.children| {
        PutAllTyped(d.values, p.children, names);
      }
    }
  }

  lemma {:induction false} PutEachTyped(ds: seq<Doc>, p: Plan, names: seq<Names>)
    requires TypedAll(ds) && Holds(p, names) && |names| <= MAX_STRUCTURES
    ensures TypedAll(PutEach(ds, p))
    decreases ds, 0
  {
    if ds != [] {
      PutTyped(ds[0], p, names);
      PutEachTyped(ds[1..], p, names);
      assert PutEach(ds, p)[1..] == PutEach(ds[1..], p);
    }
  }

  lemma {:induction false} PutAllTyped(ds: seq<Doc>, ps: seq<Plan>, names: seq<Names>)
    requires |ds| == |ps| && TypedAll(ds) && HoldAll(ps, names) && |names| <= MAX_STRUCTURES
    ensures TypedAll(PutAll(ds, ps))
    decreases ds, 0
  {
    if ds != [] {
      PutTyped(ds[0], ps[0], names);
      PutAllTyped(ds[1..], ps[1..], names);
      assert PutAll(ds, ps)[1..] == PutAll(ds[1..], ps[1..]);
    }
  }

  /** The body of a response: the answer of its one item, or the list of its items' answers. */
  function Body(ds: seq<Doc>): Doc {
    if |ds| == 1 then ds[0] else DArr(false, ds)
  }

  lemma BodyServed(ds: seq<Doc>, docs: seq<Doc>, names: seq<Names>)
    requires |docs| == |ds| < TWO63 && TypedAll(ds) && TypedAll(docs) && PlannedAll(docs, names)
             && AsMapsAll(docs) == AsMapsAll(ds)
    ensures Typed(Body(ds)) && Typed(Body(docs)) && Planned(Body(docs), names) && AsMaps(Body(docs)) == AsMaps(Body(ds))
  {
    if |ds| == 1 {
      assert AsMapsAll(docs)[0] == AsMaps(docs[0]) && AsMapsAll(ds)[0] == AsMaps(ds[0]);
    }
  }

  class StructureTable {
    var ids: map<seq<byte>, nat>
    var defined: seq<bool>
    var names: seq<Names>

    ghost predicate Valid()
      reads this
    {
      && |defined| == |names| <= MAX_STRUCTURES
      && (forall i :: 0 <= i < |names| ==> Join(names[i]) in ids && ids[Join(names[i])] == i)
      && (forall k :: k in ids ==> ids[k] < |names| && Join(names[ids[k]]) == k)
    }

    /** The ids whose definition has been written. */
    ghost function Defined(): (ds: set<nat>)
      reads this
      ensures forall i :: i in ds <==> 0 <= i < |defined| && defined[i]
    {
      set i: nat | i < |defined| && defined[i]
    }

    constructor ()
      ensures Valid() && names == [] && Defined() == {}
    {
      ids, defined, names := map[], [], [];
    }

    /**
     The id of a list of names, a new one when its key is new, -1 once the ids run out. The id stands for
     this list, and not for another one, exactly when no earlier list shares its key.
     */
    method IdFor(list: Names) returns (id: int)
      requires Valid()
      modifies this
      ensures Valid()
      ensures old(names) <= names && Defined() == old(Defined())
      ensures -1 <= id < |names|
      ensures id == -1 <==> |old(names)| == MAX_STRUCTURES && forall l :: l in old(names) ==> Join(l) != Join(list)
      ensures names == old(names) || names == old(names) + [list]
      ensures id >= 0 ==>
                (names[id] == list <==> forall l :: l in old(names) && Join(l) == Join(list) ==> l == list)
    {
      var key := Join(list);
      if key in ids {
        id := ids[key];
        assert names[id] in names;
        forall l | l in names && Join(l) == key ensures l == names[id] {
          var i :| 0 <= i < |names| && names[i] == l;
        }
        return;
      }
      forall l | l in names ensures Join(l) != key {
        var i :| 0 <= i < |names| && names[i] == l;
      }
      if |names| >= MAX_STRUCTURES {
        return -1;
      }
      id := |names|;
      ids := ids[key := id];
      names := names + [list];
      defined := defined + [false];
    }

    ghost predicate AllClean()
      reads this
    {
      forall i :: 0 <= i < |names| ==> NulFree(names[i])
    }

    /**
     planFor: the children's ids, then the record's own. One id means one list of names, whatever was planned before.
     */
    method PlanFor(l: Layout) returns (p: Plan)
      requires Valid() && AllClean() && CleanLayout(l)
      modifies this
      ensures Valid() && AllClean() && old(names) <= names && Defined() == old(Defined())
      ensures PlanOf(p, l) && Holds(p, names) && Given(p, names)
      ensures forall i, j :: 0 <= i < j < |names| ==> names[i] != names[j]
      decreases l, 1
    {
      hide Holds, PlanOf, CleanLayout, Given;
      if l.Scalar? {
        NoPlanNeeded(names);
        Different();
        return NoPlan;
      }
      assert NulFree(l.names) && CleanAll(l.children) by { CleanParts(l); }
      var children := PlansFor(l.children);
      ghost var before := names;
      var id := IdFor(l.names);
      forall i | 0 <= i < |names| ensures NulFree(names[i]) {
        if i >= |before| {
          assert names[i] == l.names;
        }
      }
      if id >= 0 {
        forall o | o in before && Join(o) == Join(l.names) ensures o == l.names {
          JoinInjective(o, l.names);
        }
      }
      p := Plan(id, l.names, children);
      HoldAllStay(children, before, names);
      AllGivenStay(children, before, names);
      PlanParts(p, l, names);
      Different();
    }

    /** A list of names has one id. */
    lemma Different()
      requires Valid()
      ensures forall i, j :: 0 <= i < j < |names| ==> names[i] != names[j]
    {
    }

    method PlansFor(ls: seq<Layout>) returns (ps: seq<Plan>)
      requires Valid() && AllClean() && CleanAll(ls)
      modifies this
      ensures Valid() && AllClean() && old(names) <= names && Defined() == old(Defined())
      ensures PlansOf(ps, ls) && HoldAll(ps, names) && AllGiven(ps, names)
      decreases ls, 1
    {
      if ls == [] {
        return [];
      }
      var first := PlanFor(ls[0]);
      ghost var before := names;
      var rest := PlansFor(ls[1..]);
      HoldsStay(first, before, names);
      GivenStays(first, before, names);
      ps := [first] + rest;
      assert ps[1..] == rest;
    }

    /** A response whose records have ids wherever the select has records, while there are ids left. */
    ghost predicate Arranged(whole: Doc, ls: seq<Layout>)
      reads this
    {
      exists ps, docs :: PlansOf(ps, ls) && HoldAll(ps, names) && AllGiven(ps, names) && whole == Body(docs)
                         && |docs| == |ps| && FollowAll(docs, ps)
    }

    /**
     A response of any number of items, planned one after the other in a table that has defined nothing: whatever rows
     the items answer with, it reads back as those rows, field by field, exactly when it fits.
     */
    method WriteResponse(ls: seq<Layout>, ds: seq<Doc>, ghost isTime: seq<byte> -> bool)
    returns (out: seq<byte>, ghost whole: Doc)
      requires Valid() && AllClean() && Defined() == {} && CleanAll(ls) && TypedAll(ds) && |ds| == |ls| < TWO63
               && LaidAll(ds, ls)
      modifies this
      ensures Valid() && AllClean() && Typed(whole) && AsMaps(whole) == AsMaps(Body(ds))
      ensures out == Encode(whole, {}).bytes && Arranged(whole, ls)
      ensures var r := ReadDocument(out, isTime);
              if Fits(whole, 0) then r.Done? && r.value == Meaning(Body(ds)) else r.Fail?
    {
      hide CleanAll, LaidAll, HoldAll, PlansOf, AsMaps, AllGiven, FollowAll, Encode;
      var ps := PlansFor(ls);
      PlanLengths(ps, ls);
      var docs := PutAll(ds, ps);
      PutAllFollow(ds, ps, ls);
      FollowAllPlanned(docs, ps, names);
      PutAllMaps(ds, ps);
      PutAllTyped(ds, ps, names);
      BodyServed(ds, docs, names);
      whole := Body(docs);
      assert Arranged(whole, ls);
      AsMapsKeeps(whole);
      AsMapsKeeps(Body(ds));
      out := WriteDocument(Body(docs), isTime);
    }

    /**
     A response of one document, on a table that has defined nothing: it reads back as its meaning exactly when it
     fits.
     */
    method WriteDocument(d: Doc, ghost isTime: seq<byte> -> bool) returns (out: seq<byte>)
      requires Valid() && Defined() == {} && Serves(d)
      modifies this`defined
      ensures Valid() && out == Encode(d, {}).bytes
      ensures var r := ReadDocument(out, isTime);
              if Fits(d, 0) then r.Done? && r.value == Meaning(d) else r.Fail?
    {
      hide Encode, Fits, Meaning, ReadItem, Typed, Planned;
      out := AppendValue([], d);
      DocumentRead(d, [], names, isTime);
      assert [] + Encode(d, {}).bytes == Encode(d, {}).bytes == Encode(d, {}).bytes + [];
    }

    // ---- writing the records of a response ------------------------------------------------

    /** Each record of the document has an id of this table, under the names the table holds for it. */
    ghost predicate Serves(d: Doc)
      reads this
    {
      Typed(d) && Planned(d, names)
    }

    ghost predicate ServesAll(ds: seq<Doc>)
      reads this
    {
      TypedAll(ds) && PlannedAll(ds, names)
    }

    /** appendValue: scalars, arrays and records, in the order the rows hold them. */
    method AppendValue(dst: seq<byte>, d: Doc) returns (out: seq<byte>)
      requires Valid() && Serves(d)
      modifies this`defined
      ensures Valid()
      ensures var o := Encode(d, old(Defined())); out == dst + o.bytes && Defined() == o.defined
      decreases d, 1
    {
      hide Open, EncodeAll, EncodeFields, IntegerBytes, DecimalBytes, HeadBytes, TextBytes, BlobBytes, ToBE;
      if d.DArr? {
        out := AppendAll(dst + Open(4, d.indef, |d.items|), d.items);
        out := out + Close(d.indef);
      } else if d.DMap? {
        out := AppendFields(dst + Open(5, d.indef, |d.keys|), d.keys, d.values);
        out := out + Close(d.indef);
      } else if d.DRec? {
        out := AppendRecord(dst, d);
      } else {
        out := dst + Encode(d, {}).bytes;
        ScalarEncode(d, Defined());
      }
    }

    /** appendRecord: a map, a reference to a structure already defined, or the definition that marks it so. */
    method AppendRecord(dst: seq<byte>, d: Doc) returns (out: seq<byte>)
      requires Valid() && d.DRec? && Serves(d)
      modifies this`defined
      ensures Valid()
      ensures var o := Encode(d, old(Defined())); out == dst + o.bytes && Defined() == o.defined
      decreases d, 0
    {
      hide HeadBytes, StructureDefBytes, StructureRefBytes;
      if d.id < 0 {
        out := AppendFields(AppendHead(dst, 5, |d.keys|), d.keys, d.values);
      } else if defined[d.id] {
        out := AppendAll(dst + StructureRefBytes(d.id, |d.keys|), d.values);
      } else {
        out := AppendStructureDef(dst, d.id, d.keys);
        defined := defined[d.id := true];
        assert Defined() == old(Defined()) + {d.id as nat};
        out := AppendAll(out, d.values);
      }
    }

    method AppendAll(dst: seq<byte>, ds: seq<Doc>) returns (out: seq<byte>)
      requires Valid() && ServesAll(ds)
      modifies this`defined
      ensures Valid()
      ensures var o := EncodeAll(ds, old(Defined())); out == dst + o.bytes && Defined() == o.defined
      decreases ds, 2
    {
      hide Encode, Typed, Planned;
      out := dst;
      var i := 0;
      assert ds[0..] == ds;
      while i < |ds|
        invariant 0 <= i <= |ds| && Valid() && ServesAll(ds[i..])
        invariant var o := EncodeAll(ds, old(Defined()));
                  var rest := EncodeAll(ds[i..], Defined());
                  out + rest.bytes == dst + o.bytes && rest.defined == o.defined
      {
        ghost var before := Defined();
        assert ds[i..][1..] == ds[i + 1..];
        assert ds[i] == ds[i..][0];
        var next := AppendValue(out, ds[i]);
        assert next + EncodeAll(ds[i + 1..], Defined()).bytes == out + EncodeAll(ds[i..], before).bytes;
        out := next;
        i := i + 1;
      }
      assert out + [] == out;
    }

    method AppendFields(dst: seq<byte>, keys: Names, values: seq<Doc>) returns (out: seq<byte>)
      requires Valid() && |keys| == |values| && ServesAll(values)
      modifies this`defined
      ensures Valid()
      ensures var o := EncodeFields(keys, values, old(Defined())); out == dst + o.bytes && Defined() == o.defined
      decreases values, 2
    {
      hide Encode, Typed, Planned, TextBytes;
      out := dst;
      var i := 0;
      assert values[0..] == values && keys[0..] == keys;
      while i < |values|
        invariant 0 <= i <= |values| && Valid() && ServesAll(values[i..])
        invariant var o := EncodeFields(keys, values, old(Defined()));
                  var rest := EncodeFields(keys[i..], values[i..], Defined());
                  out + rest.bytes == dst + o.bytes && rest.defined == o.defined
      {
        ghost var before := Defined();
        assert values[i..][1..] == values[i + 1..] && keys[i..][1..] == keys[i + 1..];
        assert values[i] == values[i..][0] && keys[i] == keys[i..][0];
        var next := AppendValue(out + TextBytes(keys[i]), values[i]);
        assert next + EncodeFields(keys[i + 1..], values[i + 1..], Defined()).bytes
               == out + EncodeFields(keys[i..], values[i..], before).bytes;
        out := next;
        i := i + 1;
      }
      assert out + [] == out;
    }
  }

  lemma CleanParts(l: Layout)
    requires l.Layout? && CleanLayout(l)
    ensures NulFree(l.names) && CleanAll(l.children)
  {
  }

  lemma PlanParts(p: Plan, l: Layout, names: seq<Names>)
    requires p.Plan? && l.Layout? && p.names == l.names && PlansOf(p.children, l.children) && HoldAll(p.children, names)
    requires p.id >= 0 ==> p.id < |names| && names[p.id] == p.names
    requires AllGiven(p.children, names) && (p.id < 0 ==> |names| >= 0x1fff)
    ensures PlanOf(p, l) && Holds(p, names) && Given(p, names)
  {
  }

  lemma NoPlanNeeded(names: seq<Names>)
    ensures PlanOf(NoPlan, Scalar) && Holds(NoPlan, names) && Given(NoPlan, names)
  {
  }
}
