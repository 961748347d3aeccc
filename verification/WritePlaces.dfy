/**
 The rows of a payload, told from where its objects are: one row for each object of a written node, in the order of the
 document, with the values the object supplies and the row of the object around it as its parent
 (query/write_denormalize.go).
 */
module WritePlaces {
  import opened Wrappers
  import opened WriteTree

  /** One step down: an embedded child of the select, and which of its items. */
  datatype Step = Step(embed: nat, item: nat)

  type Place = seq<Step>

  datatype Found = Nowhere | Found(node: Node, value: Json)

  /** What a place under an object of a node leads to; nothing below what is not an object. */
  function At(node: Node, raw: Json, place: Place): Found
    decreases |place|
  {
    if node.mode.READONLY? then Nowhere
    else if place == [] then Found(node, raw)
    else
      var child, value := Entered(node, raw, place[0]), Under(node, raw, place[0]);
      if child.None? || value.None? then Nowhere else At(child.value, value.value, place[1..])
  }

  /** The child an embed names: by its place among the incoming or the outgoing joins. */
  function Embedded(node: Node, e: Embed): Option<Node> {
    if e.incoming && e.at < |node.incoming| then Some(node.incoming[e.at])
    else if !e.incoming && e.at < |node.outgoing| then Some(node.outgoing[e.at])
    else None
  }

  function Entered(node: Node, raw: Json, s: Step): Option<Node> {
    if s.embed < |node.embeds| then Embedded(node, node.embeds[s.embed]) else None
  }

  /** The value of a step: an item of a list at an incoming join, the one value at an outgoing one. */
  function Under(node: Node, raw: Json, s: Step): Option<Json> {
    if s.embed >= |node.embeds| || !raw.JObject? || node.embeds[s.embed].key !in raw.fields then None
    else
      var v := raw.fields[node.embeds[s.embed].key];
      if node.embeds[s.embed].incoming then if v.JArray? && s.item < |v.items| then Some(v.items[s.item]) else None
      else if s.item == 0 && !v.JNull? then Some(v) else None
  }

  /** A place in the payload: an item of the root, then steps down. */
  function RootAt(root: Node, items: seq<Json>, place: Place): Found {
    if place == [] || place[0].embed != 0 || place[0].item >= |items| then Nowhere
    else At(root, items[place[0].item], place[1..])
  }

  predicate Sooner(s: Step, t: Step) {
    s.embed < t.embed || (s.embed == t.embed && s.item < t.item)
  }

  /** Document order: an object before what is in it, then by the first step that differs. */
  predicate Before(a: Place, b: Place) {
    b != [] && (a == [] || Sooner(a[0], b[0]) || (a[0] == b[0] && Before(a[1..], b[1..])))
  }

  ghost predicate InOrder(ps: seq<Place>) {
    forall i, j :: 0 <= i < j < |ps| ==> Before(ps[i], ps[j])
  }

  /** Every embedded list of an object is one. */
  ghost predicate Shaped(n: Node, v: Json) {
    v.JObject? && forall e :: e in n.embeds && Embedded(n, e).Some? && e.incoming && e.key in v.fields ==>
                                v.fields[e.key].JArray? || v.fields[e.key].JNull?
  }

  /** The path leads to a value, from object to object. */
  ghost predicate Reaches(j: Json, path: seq<string>, v: Json)
    decreases |path|
  {
    if path == [] then v == j
    else j.JObject? && path[0] in j.fields && Reaches(j.fields[path[0]], path[1..], v)
  }

  ghost predicate Supplied(ex: Extractor, raw: Json) {
    exists v :: Reaches(raw, ex.path, v)
  }

  /** The object has something for the column that it cannot take. */
  ghost predicate Untaken(env: Env, rel: Rel, ex: Extractor, raw: Json) {
    exists v :: Reaches(raw, ex.path, v) && env.encode(rel, ex.col, v).None?
  }

  ghost predicate Gives(env: Env, rel: Rel, ex: Extractor, raw: Json, value: Value) {
    exists v :: Reaches(raw, ex.path, v) && env.encode(rel, ex.col, v) == Some(value)
  }

  /** The last extractor of a column that finds something. */
  ghost predicate Sets(exs: seq<Extractor>, raw: Json, c: Col, i: nat) {
    && i < |exs| && exs[i].col == c && Supplied(exs[i], raw)
    && forall j :: i < j < |exs| && exs[j].col == c ==> !Supplied(exs[j], raw)
  }

  /** Exactly the columns the object has something for, with that. */
  ghost predicate Fills(env: Env, rel: Rel, exs: seq<Extractor>, raw: Json, vals: map<Col, Value>) {
    forall c :: if exists i: nat :: Sets(exs, raw, c, i)
                then c in vals && exists i: nat :: Sets(exs, raw, c, i) && Gives(env, rel, exs[i], raw, vals[c])
                else c !in vals
  }

  /** What is no object, an embedded list that is none, or a value a column cannot take. */
  ghost predicate Bad(env: Env, f: Found) {
    f.Found? && (!Shaped(f.node, f.value)
                 || exists ex :: ex in f.node.extractors && Untaken(env, f.node.rel, ex, f.value))
  }

  /** A row of an object: its node, and the values of the columns the object supplies. */
  ghost predicate IsRow(env: Env, r: TempRow, id: nat, f: Found) {
    f.Found? && !Bad(env, f) && r.rowId == id && r.node == f.node.id && r.rel == f.node.rel
    && Fills(env, f.node.rel, f.node.extractors, f.value, r.vals) && r.mask == r.vals.Keys
  }

  lemma {:induction false} FollowIs(j: Json, path: seq<string>)
    ensures forall v :: Reaches(j, path, v) <==> Follow(j, path) == Some(v)
    decreases |path|
  {
    if path != [] && j.JObject? && path[0] in j.fields {
      FollowIs(j.fields[path[0]], path[1..]);
    }
  }

  lemma {:induction false} FillFills(env: Env, rel: Rel, exs: seq<Extractor>, raw: Json)
    ensures Fill(env, rel, exs, raw).None? <==> exists ex :: ex in exs && Untaken(env, rel, ex, raw)
    ensures Fill(env, rel, exs, raw).Some? ==> Fills(env, rel, exs, raw, Fill(env, rel, exs, raw).value)
    decreases |exs|
  {
    hide Fills, Untaken;
    if exs == [] {
      NothingFilled(env, rel, raw);
    } else {
      var init, last := exs[..|exs| - 1], exs[|exs| - 1];
      FillFills(env, rel, init, raw);
      assert exs == init + [last];
      FillLast(env, rel, last, raw);
      if Fill(env, rel, exs, raw).Some? {
        FillsMore(env, rel, init, last, raw, Fill(env, rel, init, raw).value, Fill(env, rel, exs, raw).value);
      }
    }
  }

  lemma NothingFilled(env: Env, rel: Rel, raw: Json)
    ensures Fills(env, rel, [], raw, map[])
  {
  }

  lemma FillLast(env: Env, rel: Rel, ex: Extractor, raw: Json)
    ensures Follow(raw, ex.path).None? <==> !Supplied(ex, raw)
    ensures Untaken(env, rel, ex, raw)
            <==> Follow(raw, ex.path).Some? && env.encode(rel, ex.col, Follow(raw, ex.path).value).None?
    ensures forall value :: Gives(env, rel, ex, raw, value)
                            <==> Follow(raw, ex.path).Some?
                                 && env.encode(rel, ex.col, Follow(raw, ex.path).value) == Some(value)
  {
    hide Reaches, Follow;
    FollowIs(raw, ex.path);
    if Follow(raw, ex.path).Some? {
      assert Reaches(raw, ex.path, Follow(raw, ex.path).value);
    }
  }

  lemma FillsMore(env: Env, rel: Rel, exs: seq<Extractor>, ex: Extractor, raw: Json, before: map<Col, Value>,
                  vals: map<Col, Value>)
    requires Fills(env, rel, exs, raw, before)
    requires if Supplied(ex, raw) then (exists v :: Gives(env, rel, ex, raw, v) && vals == before[ex.col := v])
             else vals == before
    ensures Fills(env, rel, exs + [ex], raw, vals)
  {
    hide Gives, Supplied;
    var all := exs + [ex];
    forall c
      ensures if exists i: nat :: Sets(all, raw, c, i)
              then c in vals && exists i: nat :: Sets(all, raw, c, i) && Gives(env, rel, all[i], raw, vals[c])
              else c !in vals
    {
      if Supplied(ex, raw) && ex.col == c {
        assert Sets(all, raw, c, |exs|);
      } else {
        forall i: nat ensures Sets(all, raw, c, i) <==> Sets(exs, raw, c, i) {
          SetsMore(exs, ex, raw, c, i);
        }
        if i: nat :| Sets(exs, raw, c, i) && Gives(env, rel, exs[i], raw, before[c]) {
          assert Sets(all, raw, c, i) && all[i] == exs[i];
        }
      }
    }
  }

  lemma SetsMore(exs: seq<Extractor>, ex: Extractor, raw: Json, c: Col, i: nat)
    requires !(Supplied(ex, raw) && ex.col == c)
    ensures Sets(exs + [ex], raw, c, i) <==> Sets(exs, raw, c, i)
  {
    hide Supplied;
    var all := exs + [ex];
    if Sets(all, raw, c, i) {
      assert all[i] == exs[i];
      forall j | i < j < |exs| && exs[j].col == c ensures !Supplied(exs[j], raw) {
        assert all[j] == exs[j];
      }
    }
  }

  type Where = Place -> Found

  /** The parent of row k: the row of the place above, `top` for the outermost. */
  ghost predicate HasParent(ps: seq<Place>, r: TempRow, k: nat, next: nat, depth: nat, top: Option<nat>)
    requires k < |ps|
  {
    if |ps[k]| <= depth then r.parent == top
    else exists j :: 0 <= j < k && ps[j] == ps[k][..|ps[k]| - 1] && r.parent == Some(next + j)
  }

  /** Rows and places go together, one row a place, ids consecutive. */
  ghost predicate RowsAt(env: Env, where: Where, depth: nat, top: Option<nat>, next: nat, rows: seq<TempRow>,
                         ps: seq<Place>) {
    && |rows| == |ps| && InOrder(ps)
    && forall k :: 0 <= k < |ps| ==>
         IsRow(env, rows[k], next + k, where(ps[k])) && HasParent(ps, rows[k], k, next, depth, top)
  }

  // ---- the rows of a range of steps -------------------------------------------------------------------------------

  predicate Ranges(s: Step, lo: Step, hi: Step) {
    !Sooner(s, lo) && Sooner(s, hi)
  }

  ghost predicate Holds(ps: seq<Place>, p: Place) {
    exists k :: 0 <= k < |ps| && ps[k] == p
  }

  /** The rows of all places whose first step is in a range. */
  ghost predicate Group(env: Env, where: Where, top: Option<nat>, next: nat, rows: seq<TempRow>, ps: seq<Place>,
                        lo: Step, hi: Step) {
    && RowsAt(env, where, 1, top, next, rows, ps)
    && (forall k :: 0 <= k < |ps| ==> ps[k] != [] && Ranges(ps[k][0], lo, hi))
    && forall p: Place :: p != [] && Ranges(p[0], lo, hi) && where(p).Found? ==> Holds(ps, p)
  }

  lemma JoinedOrder(a: seq<Place>, b: seq<Place>, lo: Step, mid: Step, hi: Step)
    requires InOrder(a) && InOrder(b)
    requires forall k :: 0 <= k < |a| ==> a[k] != [] && Ranges(a[k][0], lo, mid)
    requires forall k :: 0 <= k < |b| ==> b[k] != [] && Ranges(b[k][0], mid, hi)
    ensures InOrder(a + b)
  {
    forall i, j | 0 <= i < j < |a + b| ensures Before((a + b)[i], (a + b)[j]) {
      if i < |a| && j >= |a| {
        assert Sooner(a[i][0], b[j - |a|][0]);
      } else if i >= |a| {
        assert (a + b)[i] == b[i - |a|] && (a + b)[j] == b[j - |a|];
      }
    }
  }

  lemma ParentLater(a: seq<Place>, b: seq<Place>, r: TempRow, k: nat, next: nat, top: Option<nat>)
    requires k < |b| && HasParent(b, r, k, next + |a|, 1, top)
    ensures HasParent(a + b, r, |a| + k, next, 1, top)
  {
    assert (a + b)[|a| + k] == b[k];
    if |b[k]| > 1 {
      var j :| 0 <= j < k && b[j] == b[k][..|b[k]| - 1] && r.parent == Some(next + |a| + j);
      assert (a + b)[|a| + j] == b[j];
    }
  }

  lemma ParentSame(a: seq<Place>, b: seq<Place>, r: TempRow, k: nat, next: nat, top: Option<nat>)
    requires k < |a| && HasParent(a, r, k, next, 1, top)
    ensures HasParent(a + b, r, k, next, 1, top)
  {
    if |a[k]| > 1 {
      var j :| 0 <= j < k && a[j] == a[k][..|a[k]| - 1] && r.parent == Some(next + j);
      assert (a + b)[j] == a[j];
    }
  }

  /** Two ranges one after the other. */
  lemma JoinGroups(env: Env, where: Where, top: Option<nat>, next: nat, r: seq<TempRow>, a: seq<Place>, s: seq<TempRow>,
                   b: seq<Place>, lo: Step, mid: Step, hi: Step)
    requires Group(env, where, top, next, r, a, lo, mid) && Group(env, where, top, next + |r|, s, b, mid, hi)
    requires !Sooner(mid, lo) && !Sooner(hi, mid)
    ensures Group(env, where, top, next, r + s, a + b, lo, hi)
  {
    hide IsRow, HasParent, InOrder, Holds;
    JoinedOrder(a, b, lo, mid, hi);
    var rows, ps := r + s, a + b;
    forall k | 0 <= k < |ps|
      ensures IsRow(env, rows[k], next + k, where(ps[k])) && HasParent(ps, rows[k], k, next, 1, top)
              && ps[k] != [] && Ranges(ps[k][0], lo, hi)
    {
      if k < |a| {
        ParentSame(a, b, r[k], k, next, top);
      } else {
        ParentLater(a, b, s[k - |a|], k - |a|, next, top);
      }
    }
    forall p: Place | p != [] && Ranges(p[0], lo, hi) && where(p).Found? ensures Holds(ps, p) {
      if Sooner(p[0], mid) {
        assert Holds(a, p);
        HoldsJoin(a, b, p);
      } else {
        assert Holds(b, p);
        HoldsJoin(a, b, p);
      }
    }
  }

  lemma HoldsJoin(a: seq<Place>, b: seq<Place>, p: Place)
    requires Holds(a, p) || Holds(b, p)
    ensures Holds(a + b, p)
  {
    if k :| 0 <= k < |a| && a[k] == p {
      assert (a + b)[k] == p;
    } else {
      var k :| 0 <= k < |b| && b[k] == p;
      assert (a + b)[|a| + k] == p;
    }
  }

  lemma EmptyGroup(env: Env, where: Where, top: Option<nat>, next: nat, lo: Step, hi: Step)
    requires forall p: Place :: p != [] && Ranges(p[0], lo, hi) ==> where(p).Nowhere?
    ensures Group(env, where, top, next, [], [], lo, hi)
  {
  }

  // ---- the rows of one object -------------------------------------------------------------------------------------

  /** The rows of an object and of all that is in it. */
  ghost predicate Placed(env: Env, where: Where, top: Option<nat>, next: nat, rows: seq<TempRow>, ps: seq<Place>) {
    && RowsAt(env, where, 0, top, next, rows, ps)
    && forall p: Place :: where(p).Found? ==> Holds(ps, p)
  }

  function Prefixed(s: Step, ps: seq<Place>): (r: seq<Place>)
    ensures |r| == |ps| && forall k :: 0 <= k < |ps| ==> r[k] == [s] + ps[k]
  {
    seq(|ps|, k requires 0 <= k < |ps| => [s] + ps[k])
  }

  lemma PrefixedOrder(s: Step, ps: seq<Place>)
    requires InOrder(ps)
    ensures InOrder(Prefixed(s, ps))
  {
    var qs := Prefixed(s, ps);
    forall i, j | 0 <= i < j < |qs| ensures Before(qs[i], qs[j]) {
      assert qs[i][1..] == ps[i] && qs[j][1..] == ps[j];
    }
  }

  lemma PrefixedParent(s: Step, ps: seq<Place>, r: TempRow, k: nat, next: nat, top: Option<nat>)
    requires k < |ps| && HasParent(ps, r, k, next, 0, top)
    ensures HasParent(Prefixed(s, ps), r, k, next, 1, top)
  {
    var qs := Prefixed(s, ps);
    if |ps[k]| > 0 {
      var j :| 0 <= j < k && ps[j] == ps[k][..|ps[k]| - 1] && r.parent == Some(next + j);
      assert qs[j] == qs[k][..|qs[k]| - 1];
    }
  }

  lemma PrefixedHolds(s: Step, ps: seq<Place>, p: Place)
    requires p != [] && p[0] == s && Holds(ps, p[1..])
    ensures Holds(Prefixed(s, ps), p)
  {
    var k :| 0 <= k < |ps| && ps[k] == p[1..];
    assert Prefixed(s, ps)[k] == [s] + p[1..] == p;
  }

  /** The rows of an object, seen from the object around it. */
  lemma OneStep(env: Env, where: Where, inner: Where, top: Option<nat>, next: nat, rows: seq<TempRow>, ps: seq<Place>,
                s: Step)
    requires Placed(env, inner, top, next, rows, ps) && forall p: Place :: where([s] + p) == inner(p)
    ensures Group(env, where, top, next, rows, Prefixed(s, ps), s, Step(s.embed, s.item + 1))
  {
    hide IsRow, InOrder, HasParent, Holds;
    var qs := Prefixed(s, ps);
    PrefixedOrder(s, ps);
    forall k | 0 <= k < |qs|
      ensures IsRow(env, rows[k], next + k, where(qs[k])) && HasParent(qs, rows[k], k, next, 1, top)
    {
      PrefixedParent(s, ps, rows[k], k, next, top);
      assert where([s] + ps[k]) == inner(ps[k]);
    }
    forall p: Place | p != [] && Ranges(p[0], s, Step(s.embed, s.item + 1)) && where(p).Found? ensures Holds(qs, p) {
      assert p[0] == s && p == [s] + p[1..];
      assert where([s] + p[1..]) == inner(p[1..]);
      PrefixedHolds(s, ps, p);
    }
  }

  lemma OwnFirst(ps: seq<Place>)
    requires InOrder(ps) && forall k :: 0 <= k < |ps| ==> ps[k] != []
    ensures InOrder([[]] + ps)
  {
    var all: seq<Place> := [[]] + ps;
    forall i, j | 0 <= i < j < |all| ensures Before(all[i], all[j]) {
      assert all[j] == ps[j - 1];
    }
  }

  lemma TopParent(ps: seq<Place>, own: TempRow, next: nat, parent: Option<nat>)
    requires own.parent == parent
    ensures HasParent([[]] + ps, own, 0, next, 0, parent)
  {
  }

  /** An object's own row before those of its children. */
  lemma WithOwn(env: Env, where: Where, parent: Option<nat>, next: nat, own: TempRow, rows: seq<TempRow>,
                ps: seq<Place>, count: nat)
    requires Group(env, where, Some(next), next + 1, rows, ps, Step(0, 0), Step(count, 0))
    requires IsRow(env, own, next, where([])) && own.parent == parent
    requires forall p: Place :: p != [] && where(p).Found? ==> p[0].embed < count
    ensures Placed(env, where, parent, next, [own] + rows, [[]] + ps)
  {
    hide IsRow, InOrder, HasParent, Holds;
    var all: seq<Place>, both := [[]] + ps, [own] + rows;
    OwnFirst(ps);
    forall k | 0 <= k < |all|
      ensures IsRow(env, both[k], next + k, where(all[k])) && HasParent(all, both[k], k, next, 0, parent)
    {
      if k == 0 {
        TopParent(ps, own, next, parent);
      } else {
        assert both[k] == rows[k - 1] && all[k] == ps[k - 1] && next + k == next + 1 + (k - 1);
        OwnParent(ps, rows[k - 1], k - 1, next, parent);
      }
    }
    forall p: Place | where(p).Found? ensures Holds(all, p) {
      if p == [] {
        RootHeld(ps);
      } else {
        assert Ranges(p[0], Step(0, 0), Step(count, 0));
        HoldsJoin([[]], ps, p);
      }
    }
  }

  lemma RootHeld(ps: seq<Place>)
    ensures Holds([[]] + ps, [])
  {
    var all: seq<Place> := [[]] + ps;
    assert all[0] == [];
  }

  lemma OwnParent(ps: seq<Place>, r: TempRow, k: nat, next: nat, parent: Option<nat>)
    requires k < |ps| && ps[k] != [] && HasParent(ps, r, k, next + 1, 1, Some(next))
    ensures HasParent([[]] + ps, r, k + 1, next, 0, parent)
  {
    var all: seq<Place> := [[]] + ps;
    assert all[k + 1] == ps[k];
    if |ps[k]| == 1 {
      assert all[0] == ps[k][..0];
    } else {
      var j :| 0 <= j < k && ps[j] == ps[k][..|ps[k]| - 1] && r.parent == Some(next + 1 + j);
      assert all[j + 1] == ps[j];
    }
  }

  // ---- the walk ---------------------------------------------------------------------------------------------------

  /** Where the places under an object lead. */
  function Inside(node: Node, raw: Json): Where {
    (p: Place) => At(node, raw, p)
  }

  lemma {:induction false} WalkPlaces(env: Env, node: Node, raw: Json, parent: Option<nat>, next: nat)
    returns (ps: seq<Place>)
    requires Walk(env, node, raw, parent, next).Rows?
    ensures Placed(env, Inside(node, raw), parent, next, Walk(env, node, raw, parent, next).rows, ps)
    decreases node, 2, 0
  {
    hide Fill, Group, Placed, WalkEmbeds, Untaken, Fills;
    FillFills(env, node.rel, node.extractors, raw);
    if node.mode.READONLY? {
      ps := [];
      NothingThere(env, Inside(node, raw), parent, next);
    } else {
      var vals := Fill(env, node.rel, node.extractors, raw).value;
      var kids := EmbedsPlaces(env, node, 0, raw, next, next + 1);
      assert node.embeds[0..] == node.embeds;
      ps := [[]] + kids;
      assert Shaped(node, raw) by {
        ShapedFrom(node, raw, 0);
      }
      WithOwn(env, Inside(node, raw), parent, next, TempRow(next, node.id, node.rel, parent, vals, vals.Keys),
              WalkEmbeds(env, node, node.embeds, raw, next, next + 1).rows, kids, |node.embeds|);
    }
  }

  lemma NothingThere(env: Env, where: Where, parent: Option<nat>, next: nat)
    requires forall p: Place :: where(p).Nowhere?
    ensures Placed(env, where, parent, next, [], [])
  {
  }

  /** The lists that were walked. */
  ghost predicate ShapedEmbed(node: Node, raw: Json, e: Embed) {
    raw.JObject? && (Child(node, e).Some? && e.incoming && e.key in raw.fields ==>
                       raw.fields[e.key].JArray? || raw.fields[e.key].JNull?)
  }

  lemma ShapedFrom(node: Node, raw: Json, k: nat)
    requires raw.JObject? && k == 0 && forall i :: k <= i < |node.embeds| ==> ShapedEmbed(node, raw, node.embeds[i])
    ensures Shaped(node, raw)
  {
  }

  lemma {:induction false} EmbedsPlaces(env: Env, node: Node, k: nat, raw: Json, me: nat, next: nat)
    returns (ps: seq<Place>)
    requires k <= |node.embeds| && !node.mode.READONLY? && raw.JObject?
    requires WalkEmbeds(env, node, node.embeds[k..], raw, me, next).Rows?
    ensures Group(env, Inside(node, raw), Some(me), next, WalkEmbeds(env, node, node.embeds[k..], raw, me, next).rows,
                  ps,
                  Step(k, 0), Step(|node.embeds|, 0))
    ensures forall i :: k <= i < |node.embeds| ==> ShapedEmbed(node, raw, node.embeds[i])
    decreases node, 1, |node.embeds| - k
  {
    hide Group, Fill, ShapedEmbed, WalkEmbed;
    var embeds := node.embeds[k..];
    if embeds == [] {
      ps := [];
      EmptyGroup(env, Inside(node, raw), Some(me), next, Step(k, 0), Step(k, 0));
    } else {
      assert embeds[0] == node.embeds[k] && embeds[1..] == node.embeds[k + 1..];
      var first := WalkEmbed(env, node, embeds[0], raw, me, next);
      var a := EmbedPlaces(env, node, k, raw, me, next);
      var b := EmbedsPlaces(env, node, k + 1, raw, me, next + |first.rows|);
      ps := a + b;
      JoinGroups(env, Inside(node, raw), Some(me), next, first.rows, a,
                 WalkEmbeds(env, node, embeds[1..], raw, me, next + |first.rows|).rows, b, Step(k, 0), Step(k + 1, 0),
                 Step(|node.embeds|, 0));
    }
  }

  lemma {:induction false} EmbedPlaces(env: Env, node: Node, k: nat, raw: Json, me: nat, next: nat)
    returns (ps: seq<Place>)
    requires k < |node.embeds| && !node.mode.READONLY? && raw.JObject?
    requires WalkEmbed(env, node, node.embeds[k], raw, me, next).Rows?
    ensures Group(env, Inside(node, raw), Some(me), next, WalkEmbed(env, node, node.embeds[k], raw, me, next).rows, ps,
                  Step(k, 0), Step(k + 1, 0))
    ensures ShapedEmbed(node, raw, node.embeds[k])
    decreases node, 0, 0
  {
    hide Group, Fill, Walk, WalkItems, Inside;
    var e := node.embeds[k];
    var c, v := Child(node, e), ObjectGet(raw, e.key);
    if c.None? || v.None? || v.value.JNull? {
      ps := [];
      NothingUnder(node, raw, k, 0);
      EmptyGroup(env, Inside(node, raw), Some(me), next, Step(k, 0), Step(k + 1, 0));
    } else if e.incoming {
      var items := v.value.items;
      assert items[0..] == items;
      ps := ItemsPlaces(env, node, k, raw, c.value, items, 0, me, next);
    } else {
      var inner := WalkPlaces(env, c.value, v.value, Some(me), next);
      ps := OutgoingPlaces(env, node, k, raw, c.value, v.value, me, next,
                           Walk(env, c.value, v.value, Some(me), next).rows,
                           inner);
    }
  }

  /** Nothing under a child that is not there, nor under more than its items. */
  lemma NothingUnder(node: Node, raw: Json, k: nat, i: nat)
    requires k < |node.embeds| && !node.mode.READONLY?
    requires forall s: Step :: s.embed == k && s.item >= i ==>
                                 Entered(node, raw, s) == None || Under(node, raw, s) == None
    ensures forall p: Place :: p != [] && Ranges(p[0], Step(k, i), Step(k + 1, 0)) ==> Inside(node, raw)(p).Nowhere?
  {
    hide Under;
    forall p: Place | p != [] && Ranges(p[0], Step(k, i), Step(k + 1, 0)) ensures At(node, raw, p).Nowhere? {
      assert p[0].embed == k && p[0].item >= i;
    }
  }

  lemma OutgoingPlaces(env: Env, node: Node, k: nat, raw: Json, c: Node, v: Json, me: nat, next: nat,
                       rows: seq<TempRow>, inner: seq<Place>) returns (ps: seq<Place>)
    requires k < |node.embeds| && !node.mode.READONLY? && raw.JObject? && Child(node, node.embeds[k]) == Some(c)
    requires !node.embeds[k].incoming && node.embeds[k].key in raw.fields
             && raw.fields[node.embeds[k].key] == v != JNull
    requires Placed(env, Inside(c, v), Some(me), next, rows, inner)
    ensures Group(env, Inside(node, raw), Some(me), next, rows, ps, Step(k, 0), Step(k + 1, 0))
  {
    hide Group, Placed, Inside;
    ps := Prefixed(Step(k, 0), inner);
    StepInside(node, raw, Step(k, 0), c, v);
    OneStep(env, Inside(node, raw), Inside(c, v), Some(me), next, rows, inner, Step(k, 0));
    NothingUnder(node, raw, k, 1);
    EmptyGroup(env, Inside(node, raw), Some(me), next + |ps|, Step(k, 1), Step(k + 1, 0));
    OneMore(env, Inside(node, raw), Some(me), next, rows, ps, Step(k, 0), Step(k, 1), Step(k + 1, 0));
  }

  /** A range with nothing after it. */
  lemma OneMore(env: Env, where: Where, top: Option<nat>, next: nat, rows: seq<TempRow>, ps: seq<Place>, lo: Step,
                mid: Step, hi: Step)
    requires Group(env, where, top, next, rows, ps, lo, mid) && Group(env, where, top, next + |ps|, [], [], mid, hi)
    requires !Sooner(mid, lo) && !Sooner(hi, mid)
    ensures Group(env, where, top, next, rows, ps, lo, hi)
  {
    JoinGroups(env, where, top, next, rows, ps, [], [], lo, mid, hi);
    assert rows + [] == rows && ps + [] == ps;
  }

  lemma StepInside(node: Node, raw: Json, s: Step, c: Node, v: Json)
    requires !node.mode.READONLY? && Entered(node, raw, s) == Some(c) && Under(node, raw, s) == Some(v)
    ensures forall p: Place :: Inside(node, raw)([s] + p) == Inside(c, v)(p)
  {
    forall p: Place ensures At(node, raw, [s] + p) == At(c, v, p) {
      assert ([s] + p)[1..] == p;
    }
  }

  lemma {:induction false} ItemsPlaces(env: Env, node: Node, k: nat, raw: Json, c: Node, items: seq<Json>, i: nat,
                                       me: nat, next: nat) returns (ps: seq<Place>)
    requires k < |node.embeds| && !node.mode.READONLY? && Child(node, node.embeds[k]) == Some(c) && i <= |items|
    requires node.embeds[k].incoming && raw.JObject? && node.embeds[k].key in raw.fields
             && raw.fields[node.embeds[k].key] == JArray(items)
    requires WalkItems(env, c, items[i..], me, next).Rows?
    ensures Group(env, Inside(node, raw), Some(me), next, WalkItems(env, c, items[i..], me, next).rows, ps, Step(k, i),
                  Step(k + 1, 0))
    decreases c, 3, |items| - i
  {
    hide Group, Fill, Walk;
    if i == |items| {
      ps := [];
      EmptyGroup(env, Inside(node, raw), Some(me), next, Step(k, i), Step(k + 1, 0));
    } else {
      var rest := items[i..];
      assert rest[0] == items[i] && rest[1..] == items[i + 1..];
      var first := Walk(env, c, items[i], Some(me), next);
      var inner := WalkPlaces(env, c, items[i], Some(me), next);
      StepInside(node, raw, Step(k, i), c, items[i]);
      OneStep(env, Inside(node, raw), Inside(c, items[i]), Some(me), next, first.rows, inner, Step(k, i));
      var b := ItemsPlaces(env, node, k, raw, c, items, i + 1, me, next + |first.rows|);
      ps := Prefixed(Step(k, i), inner) + b;
      JoinGroups(env, Inside(node, raw), Some(me), next, first.rows, Prefixed(Step(k, i), inner),
                 WalkItems(env, c, rest[1..], me, next + |first.rows|).rows, b, Step(k, i), Step(k, i + 1),
                 Step(k + 1, 0));
    }
  }

  // ---- the payload ------------------------------------------------------------------------------------------------

  function InPayload(root: Node, items: seq<Json>): Where {
    (p: Place) => RootAt(root, items, p)
  }

  lemma {:induction false} RootsPlaces(env: Env, root: Node, items: seq<Json>, i: nat, next: nat)
  returns (ps: seq<Place>)
    requires i <= |items| && Denormalize(env, root, items[i..], next).Rows?
    ensures Group(env, InPayload(root, items), None, next, Denormalize(env, root, items[i..], next).rows, ps,
                  Step(0, i),
                  Step(1, 0))
    decreases |items| - i
  {
    hide Group, Fill, Walk;
    if i == |items| {
      ps := [];
      EmptyGroup(env, InPayload(root, items), None, next, Step(0, i), Step(1, 0));
    } else {
      var rest := items[i..];
      assert rest[0] == items[i] && rest[1..] == items[i + 1..];
      var first := Walk(env, root, items[i], None, next);
      var inner := WalkPlaces(env, root, items[i], None, next);
      forall p: Place ensures InPayload(root, items)([Step(0, i)] + p) == Inside(root, items[i])(p) {
        assert ([Step(0, i)] + p)[1..] == p;
      }
      OneStep(env, InPayload(root, items), Inside(root, items[i]), None, next, first.rows, inner, Step(0, i));
      var b := RootsPlaces(env, root, items, i + 1, next + |first.rows|);
      ps := Prefixed(Step(0, i), inner) + b;
      JoinGroups(env, InPayload(root, items), None, next, first.rows, Prefixed(Step(0, i), inner),
                 Denormalize(env, root, rest[1..], next + |first.rows|).rows, b, Step(0, i), Step(0, i + 1),
                 Step(1, 0));
    }
  }

  /**
   The rows of a payload: one for each object of a written node, in document order, under the row of the one around.
   */
  ghost predicate PayloadIs(env: Env, root: Node, items: seq<Json>, next: nat, rows: seq<TempRow>, ps: seq<Place>) {
    && |rows| == |ps| && InOrder(ps)
    && (forall k :: 0 <= k < |ps| ==>
          ps[k] != [] && IsRow(env, rows[k], next + k, RootAt(root, items, ps[k]))
          && HasParent(ps, rows[k], k, next, 1, None))
    && forall p: Place :: RootAt(root, items, p).Found? ==> Holds(ps, p)
  }

  lemma DenormalizedIs(env: Env, root: Node, items: seq<Json>, next: nat) returns (ps: seq<Place>)
    requires Denormalize(env, root, items, next).Rows?
    ensures PayloadIs(env, root, items, next, Denormalize(env, root, items, next).rows, ps)
  {
    hide IsRow, HasParent, InOrder, Holds, Denormalize, At;
    assert items[0..] == items;
    ps := RootsPlaces(env, root, items, 0, next);
    forall p: Place | RootAt(root, items, p).Found? ensures Holds(ps, p) {
      assert Ranges(p[0], Step(0, 0), Step(1, 0)) && InPayload(root, items)(p).Found?;
    }
  }

  // ---- refusals ---------------------------------------------------------------------------------------------------

  lemma {:induction false} BadWalk(env: Env, node: Node, raw: Json, parent: Option<nat>, next: nat) returns (p: Place)
    requires Walk(env, node, raw, parent, next).Refused?
    ensures Bad(env, At(node, raw, p))
    decreases node, 2, 0
  {
    hide Fill, WalkEmbeds, Untaken;
    FillFills(env, node.rel, node.extractors, raw);
    p := [];
    if raw.JObject? && Fill(env, node.rel, node.extractors, raw).Some? {
      assert node.embeds[0..] == node.embeds;
      p := BadEmbeds(env, node, 0, raw, next, next + 1);
    }
  }

  lemma {:induction false} BadEmbeds(env: Env, node: Node, k: nat, raw: Json, me: nat, next: nat) returns (p: Place)
    requires k <= |node.embeds| && !node.mode.READONLY? && raw.JObject?
    requires WalkEmbeds(env, node, node.embeds[k..], raw, me, next).Refused?
    ensures Bad(env, At(node, raw, p))
    decreases node, 1, |node.embeds| - k
  {
    hide Bad, WalkEmbed, At;
    var embeds := node.embeds[k..];
    assert embeds[0] == node.embeds[k] && embeds[1..] == node.embeds[k + 1..];
    var first := WalkEmbed(env, node, embeds[0], raw, me, next);
    if first.Refused? {
      p := BadEmbed(env, node, k, raw, me, next);
    } else {
      p := BadEmbeds(env, node, k + 1, raw, me, next + |first.rows|);
    }
  }

  lemma {:induction false} BadEmbed(env: Env, node: Node, k: nat, raw: Json, me: nat, next: nat) returns (p: Place)
    requires k < |node.embeds| && !node.mode.READONLY? && raw.JObject?
    requires WalkEmbed(env, node, node.embeds[k], raw, me, next).Refused?
    ensures Bad(env, At(node, raw, p))
    decreases node, 0, 0
  {
    hide Walk, WalkItems, Fill;
    var e := node.embeds[k];
    var c, v := Child(node, e), ObjectGet(raw, e.key);
    if e.incoming && v.value.JArray? {
      assert v.value.items[0..] == v.value.items;
      p := BadItems(env, node, k, raw, c.value, v.value.items, 0, me, next);
    } else if e.incoming {
      p := [];
    } else {
      var q := BadWalk(env, c.value, v.value, Some(me), next);
      p := [Step(k, 0)] + q;
      StepInside(node, raw, Step(k, 0), c.value, v.value);
      assert Inside(node, raw)([Step(k, 0)] + q) == Inside(c.value, v.value)(q);
    }
  }

  lemma {:induction false} BadItems(env: Env, node: Node, k: nat, raw: Json, c: Node, items: seq<Json>, i: nat, me: nat,
                                    next: nat) returns (p: Place)
    requires k < |node.embeds| && !node.mode.READONLY? && Child(node, node.embeds[k]) == Some(c) && i <= |items|
    requires node.embeds[k].incoming && raw.JObject? && node.embeds[k].key in raw.fields
             && raw.fields[node.embeds[k].key] == JArray(items)
    requires WalkItems(env, c, items[i..], me, next).Refused?
    ensures Bad(env, At(node, raw, p))
    decreases c, 3, |items| - i
  {
    hide Walk, Bad, At;
    var rest := items[i..];
    assert rest[0] == items[i] && rest[1..] == items[i + 1..];
    var first := Walk(env, c, items[i], Some(me), next);
    if first.Refused? {
      var q := BadWalk(env, c, items[i], Some(me), next);
      p := [Step(k, i)] + q;
      StepInside(node, raw, Step(k, i), c, items[i]);
      assert Inside(node, raw)([Step(k, i)] + q) == Inside(c, items[i])(q);
    } else {
      p := BadItems(env, node, k, raw, c, items, i + 1, me, next + |first.rows|);
    }
  }

  lemma {:induction false} BadRoots(env: Env, root: Node, items: seq<Json>, i: nat, next: nat) returns (p: Place)
    requires i <= |items| && Denormalize(env, root, items[i..], next).Refused?
    ensures Bad(env, RootAt(root, items, p))
    decreases |items| - i
  {
    hide Walk, Bad, At;
    var rest := items[i..];
    assert rest[0] == items[i] && rest[1..] == items[i + 1..];
    var first := Walk(env, root, items[i], None, next);
    if first.Refused? {
      var q := BadWalk(env, root, items[i], None, next);
      p := [Step(0, i)] + q;
      assert p[1..] == q;
    } else {
      p := BadRoots(env, root, items, i + 1, next + |first.rows|);
    }
  }

  /** A payload is refused if and only if something in it is. */
  lemma RefusedIff(env: Env, root: Node, items: seq<Json>, next: nat)
    ensures Denormalize(env, root, items, next).Refused? <==> exists p: Place :: Bad(env, RootAt(root, items, p))
  {
    hide Denormalize, RootAt, Fill, Shaped;
    assert items[0..] == items;
    if Denormalize(env, root, items, next).Refused? {
      var p := BadRoots(env, root, items, 0, next);
    } else {
      var ps := DenormalizedIs(env, root, items, next);
      forall p: Place ensures !Bad(env, RootAt(root, items, p)) {
        if RootAt(root, items, p).Found? {
          assert Holds(ps, p);
          var k :| 0 <= k < |ps| && ps[k] == p;
          assert IsRow(env, Denormalize(env, root, items, next).rows[k], next + k, RootAt(root, items, ps[k]));
        }
      }
    }
  }
}
