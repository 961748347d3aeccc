/**
 Write mode "update": one patch for every row the root's where selects, on the fast path of query/write_fast.go and on
 the general path of query/write_dml.go, which adds a temp row for the key of each row it updates.
 */
module WriteUpdate {
  import opened Wrappers
  import opened WriteTree
  import opened WriteStatements
  import opened WriteOutcome
  import opened WriteAnswer
  import opened WriteFast

  /** The rows an update's where selects. */
  predicate Selects(q: Query, w: World, seen: Sight, r: Row) {
    q.where.Some? ==> w.isTrue(Eval(q.where.value, r, w, seen))
  }

  /** Those rows, in the order the database finds them. */
  ghost predicate Scan(t: Table, q: Query, w: World, seen: Sight, order: seq<Value>) {
    && (forall i, j :: 0 <= i < j < |order| ==> order[i] != order[j])
    && (forall k :: k in order <==> k in t && Selects(q, w, seen, t[k]))
  }

  ghost function NewIdent(t: Table, patch: Row, ident: Col, k: Value): Value
    requires k in t
  {
    Get(t[k] + patch, ident)
  }

  /** The patch may move rows to other identities, as long as no two rows end up with the same one. */
  ghost predicate Movable(t: Table, patch: Row, ident: Col, order: seq<Value>)
    requires forall k :: k in order ==> k in t
  {
    && (forall i :: 0 <= i < |order| ==> NewIdent(t, patch, ident, order[i]) != Null)
    && (forall i, j :: 0 <= i < j < |order| ==>
                         NewIdent(t, patch, ident, order[i]) != NewIdent(t, patch, ident, order[j]))
    && (forall i, k :: 0 <= i < |order| && k in t && k !in order ==> NewIdent(t, patch, ident, order[i]) != k)
  }

  /** The table after the update of the first rows of the scan. */
  ghost function Patched(t: Table, patch: Row, ident: Col, order: seq<Value>, count: nat): Table
    requires (forall k :: k in order ==> k in t) && count <= |order|
  {
    if count == 0 then map k | k in t && k !in order :: t[k]
    else Patched(t, patch, ident, order, count - 1)[NewIdent(t, patch, ident, order[count - 1]) :=
        t[order[count - 1]] + patch]
  }

  lemma {:induction false} PatchedRow(t: Table, patch: Row, ident: Col, order: seq<Value>, count: nat, i: nat)
    requires (forall k :: k in order ==> k in t) && i < count <= |order| && Movable(t, patch, ident, order)
    ensures var k := NewIdent(t, patch, ident, order[i]);
            var t' := Patched(t, patch, ident, order, count);
            k in t' && t'[k] == t[order[i]] + patch
  {
    if i < count - 1 {
      PatchedRow(t, patch, ident, order, count - 1, i);
    }
  }

  /** What the update returns, in the order it finds the rows. */
  ghost function PatchReturned(t: Table, patch: Row, order: seq<Value>, count: nat): seq<Row>
    requires (forall k :: k in order ==> k in t) && count <= |order|
  {
    if count == 0 then [] else PatchReturned(t, patch, order, count - 1) + [t[order[count - 1]] + patch]
  }

  /** The general path: a fresh temp row for each updated row's key, beside those of earlier writes. */
  ghost function PatchTemps(temps: Temps, t: Table, n: Node, patch: Row, ident: Col, order: seq<Value>, next: nat,
                            count: nat): Temps
    requires (forall k :: k in order ==> k in t) && count <= |order|
  {
    if count == 0 then temps
    else PatchTemps(temps, t, n, patch, ident, order, next, count - 1)
         [next + count := TempRow(next + count, n.id, n.rel, None,
                                  map[ident := NewIdent(t, patch, ident, order[count - 1])], {})]
  }

  lemma {:induction false} PatchTempRow(temps: Temps, t: Table, n: Node, patch: Row, ident: Col, order: seq<Value>,
                                        next: nat, count: nat, a: nat)
    requires (forall k :: k in order ==> k in t) && count <= |order|
    ensures a in PatchTemps(temps, t, n, patch, ident, order, next, count) <==> a in temps || next < a <= next + count
    ensures a in temps && !(next < a <= next + count) ==>
              PatchTemps(temps, t, n, patch, ident, order, next, count)[a] == temps[a]
    ensures next < a <= next + count ==> PatchTemps(temps, t, n, patch, ident, order, next, count)[a]
                                         == TempRow(a, n.id, n.rel, None, map[ident :=
                                             NewIdent(t, patch, ident, order[a - next - 1])], {})
  {
    if count > 0 {
      PatchTempRow(temps, t, n, patch, ident, order, next, count - 1, a);
    }
  }

  /** The state after the general path's update. */
  ghost function PatchedState(db: map<Rel, Table>, temps: Temps, n: Node, patch: Row, ident: Col, order: seq<Value>,
                              next: nat): State
    requires forall k :: k in order ==> k in TableOf(db, n.rel)
  {
    var t := TableOf(db, n.rel);
    State(db[n.rel := Patched(t, patch, ident, order, |order|)],
          PatchTemps(temps, t, n, patch, ident, order, next, |order|))
  }

  /** The read-back finds what the update returned, even when the patch changes the identity. */
  lemma {:induction false} PatchReadBack(env: Env, db: map<Rel, Table>, temps: Temps, n: Node, patch: Row,
                                         order: seq<Value>, next: nat, hi: nat)
    requires var t := TableOf(db, n.rel);
             (forall k :: k in order ==> k in t) && Movable(t, patch, env.ident(n.rel), order)
    requires Fresh(temps, n, next)
    ensures ReadBack(env, PatchedState(db, temps, n, patch, env.ident(n.rel), order, next), n, 0, hi)
            == PatchReturned(TableOf(db, n.rel), patch, order, if hi <= next + 1 then 0
                             else if hi > next + |order| then |order| else hi - next - 1)
    decreases hi
  {
    hide Movable, Patched, PatchTemps, PatchedState, ReadOne, TableOf;
    if hi > 0 {
      PatchReadBack(env, db, temps, n, patch, order, next, hi - 1);
      PatchReadOne(env, db, temps, n, patch, order, next, hi - 1);
    }
  }

  lemma PatchReadOne(env: Env, db: map<Rel, Table>, temps: Temps, n: Node, patch: Row, order: seq<Value>, next: nat,
                     a: nat)
    requires var t := TableOf(db, n.rel);
             (forall k :: k in order ==> k in t) && Movable(t, patch, env.ident(n.rel), order)
    requires Fresh(temps, n, next)
    ensures ReadOne(env, PatchedState(db, temps, n, patch, env.ident(n.rel), order, next), n, a)
            == if next < a <= next + |order| then [TableOf(db, n.rel)[order[a - next - 1]] + patch] else []
  {
    hide Movable, Patched, PatchTemps;
    var t := TableOf(db, n.rel);
    PatchTempRow(temps, t, n, patch, env.ident(n.rel), order, next, |order|, a);
    if next < a <= next + |order| {
      PatchedRow(t, patch, env.ident(n.rel), order, |order|, a - next - 1);
    }
  }

  function FastUpdateOrder(q: Query): Order {
    if q.orderBy != [] then Explicit(q.orderBy) else Unordered
  }

  /**
   runUpdateWhereFast: refused when identities would meet, else the patched table and an answer from what is returned.
   */
  ghost function FastUpdate(env: Env, db: map<Rel, Table>, n: Node, q: Query, w: World, seen: Sight, patch: Row,
                            order: seq<Value>): Option<Written>
    requires forall k :: k in order ==> k in TableOf(db, n.rel)
  {
    var t, ident := TableOf(db, n.rel), env.ident(n.rel);
    if !Movable(t, patch, ident, order) then None
    else
      var answer := Respond(q, FastUpdateOrder(q), w, seen, PatchReturned(t, patch, order, |order|));
      if answer.None? then None else Some(Written(Patched(t, patch, ident, order, |order|), answer.value))
  }

  /** runUpdateWhere, and the read-back through the temp rows it adds, of the state the whole request ends in. */
  ghost function GeneralUpdate(env: Env, s: State, n: Node, q: Query, w: World, seen: Sight, patch: Row,
                               order: seq<Value>, hi: nat, end: State): Option<Written>
    requires forall k :: k in order ==> k in TableOf(s.db, n.rel)
  {
    var t, ident := TableOf(s.db, n.rel), env.ident(n.rel);
    if !Movable(t, patch, ident, order) then None
    else
      var answer := Respond(q, GeneralOrder(q), w, seen, ReadBack(env, end, n, 0, hi));
      if answer.None? then None else Some(Written(Patched(t, patch, ident, order, |order|), answer.value))
  }

  /** An eligible where selects the same rows, whatever either path sees beside them. */
  lemma SameScan(t: Table, q: Query, o: Options, w: World, a: Sight, b: Sight, order: seq<Value>)
    requires EligibleQuery(q, o)
    ensures Scan(t, q, w, a, order) <==> Scan(t, q, w, b, order)
  {
    hide Eval, PlainRow;
    forall k | k in t ensures Selects(q, w, a, t[k]) <==> Selects(q, w, b, t[k]) {
      if q.where.Some? {
        PlainAlone(q.where.value, t[k], t[k], w, a, b);
      }
    }
  }

  /** The row ids the update takes are before hi. */
  predicate Within(order: seq<Value>, next: nat, hi: nat) {
    order == [] || next + |order| < hi
  }

  /** The temp rows of the update are fresh ones. */
  ghost predicate Fresh(temps: Temps, n: Node, next: nat) {
    forall a :: a in temps ==> a <= next && temps[a].node != n.id
  }

  /**
   A where-driven update, even one whose patch changes what its where selects, or the identity: as long as the rest of
   the request leaves what the answer reads, both paths update the same rows, leave the same table and give the same
   response, if and only if their orders agree.
   */
  lemma UpdateWhereSame(env: Env, s: State, n: Node, q: Query, o: Options, w: World, fastSees: Sight,
                        generalSees: Sight, patch: Row, order: seq<Value>, next: nat, hi: nat, end: State)
    requires EligibleQuery(q, o) && Scan(TableOf(s.db, n.rel), q, w, generalSees, order) && Fresh(s.temps, n, next)
             && Within(order, next, hi)
    requires ReadsAlike(env, PatchedState(s.db, s.temps, n, patch, env.ident(n.rel), order, next), end, n, hi, q.where,
                        w, generalSees)
    ensures Scan(TableOf(s.db, n.rel), q, w, fastSees, order)
    ensures FastUpdate(env, s.db, n, q, w, fastSees, patch, order)
            == GeneralUpdate(env, s, n, q, w, generalSees, patch, order, hi, end)
            <==> Agree(q, FastUpdateOrder(q), !Movable(TableOf(s.db, n.rel), patch, env.ident(n.rel), order), false)
  {
    hide Movable, Patched, PatchTemps, PatchReturned, PatchedState, ReadBack, EligibleQuery, Allowed, Answer, AllFacts,
         Selects, Passing, AllAlike;
    var t := TableOf(s.db, n.rel);
    SameScan(t, q, o, w, generalSees, fastSees, order);
    if Movable(t, patch, env.ident(n.rel), order) {
      PatchReadBack(env, s.db, s.temps, n, patch, order, next, hi);
      OrdersDisagree(q, INSERT);
      if Allowed(q, GeneralOrder(q)) {
        AnswersSame(q, o, FastUpdateOrder(q), w, fastSees, generalSees, PatchReturned(t, patch, order, |order|),
                    ReadBack(env, end, n, 0, hi));
      }
    }
  }

  /** Both paths answer every eligible update that has this where and whose orders agree the same. */
  ghost predicate UpdatedSame(env: Env, s: State, n: Node, where: Option<Expr>, w: World, fastSees: Sight,
                              generalSees: Sight, patch: Row, order: seq<Value>, hi: nat, end: State)
    requires forall k :: k in order ==> k in TableOf(s.db, n.rel)
  {
    forall q, o :: EligibleQuery(q, o) && q.where == where && Allowed(q, GeneralOrder(q)) ==>
      FastUpdate(env, s.db, n, q, w, fastSees, patch, order)
      == GeneralUpdate(env, s, n, q, w, generalSees, patch, order, hi, end)
  }

  /** Exactly when the rest of the request leaves what the answer reads is every such update answered the same. */
  lemma EveryUpdate(env: Env, s: State, n: Node, where: Option<Expr>, w: World, fastSees: Sight, generalSees: Sight,
                    patch: Row, order: seq<Value>, next: nat, hi: nat, end: State)
    requires PlainWhere(where) && Fresh(s.temps, n, next) && Within(order, next, hi)
    requires Scan(TableOf(s.db, n.rel), ShowColumn(0, where), w, generalSees, order)
    requires Movable(TableOf(s.db, n.rel), patch, env.ident(n.rel), order)
    ensures UpdatedSame(env, s, n, where, w, fastSees, generalSees, patch, order, hi, end)
            <==> ReadsAlike(env, PatchedState(s.db, s.temps, n, patch, env.ident(n.rel), order, next), end, n, hi,
                            where, w, generalSees)
  {
    hide Movable, Patched, PatchTemps, PatchReturned, PatchedState, ReadBack, EligibleQuery, Allowed, FastUpdate,
         GeneralUpdate, Passing, AllAlike, ReadsAlike, Eval, Fresh, Shown;
    var r := PatchedState(s.db, s.temps, n, patch, env.ident(n.rel), order, next);
    if ReadsAlike(env, r, end, n, hi, where, w, generalSees) {
      forall q, o | EligibleQuery(q, o) && q.where == where && Allowed(q, GeneralOrder(q))
        ensures FastUpdate(env, s.db, n, q, w, fastSees, patch, order)
                == GeneralUpdate(env, s, n, q, w, generalSees, patch, order, hi, end)
      {
        UpdateWhereSame(env, s, n, q, o, w, fastSees, generalSees, patch, order, next, hi, end);
      }
    }
    if UpdatedSame(env, s, n, where, w, fastSees, generalSees, patch, order, hi, end) {
      var x := Passing(where, w, generalSees, ReadBack(env, r, n, 0, hi));
      var y := Passing(where, w, generalSees, ReadBack(env, end, n, 0, hi));
      forall c ensures Shown(x, c) == Shown(y, c) {
        ShowEligible(c, where);
        ShownUpdate(env, s, n, where, w, fastSees, generalSees, patch, order, next, hi, end, c);
      }
      AlikeByColumns(x, y);
      IsAlike(env, r, end, n, hi, where, w, generalSees);
    }
  }

  /** What both paths answer to an update that shows one column. */
  lemma ShownUpdate(env: Env, s: State, n: Node, where: Option<Expr>, w: World, fastSees: Sight, generalSees: Sight,
                    patch: Row, order: seq<Value>, next: nat, hi: nat, end: State, c: Col)
    requires PlainWhere(where) && Fresh(s.temps, n, next) && Within(order, next, hi) && forall k ::
               k in order ==> k in TableOf(s.db, n.rel)
    requires Movable(TableOf(s.db, n.rel), patch, env.ident(n.rel), order)
    ensures var q, r := ShowColumn(c, where), PatchedState(s.db, s.temps, n, patch, env.ident(n.rel), order, next);
            var fast := FastUpdate(env, s.db, n, q, w, fastSees, patch, order);
            var general := GeneralUpdate(env, s, n, q, w, generalSees, patch, order, hi, end);
            && fast.Some? && fast.value.response == Shown(Passing(where, w, generalSees, ReadBack(env, r, n, 0, hi)), c)
            && general.Some? && general.value.response
            == Shown(Passing(where, w, generalSees, ReadBack(env, end, n, 0, hi)), c)
  {
    hide Movable, Patched, PatchTemps, PatchReturned, PatchedState, ReadBack, Answer, AllFacts, Passing, Shown,
         PlainWhere;
    var t := TableOf(s.db, n.rel);
    var read := PatchReturned(t, patch, order, |order|);
    PatchReadBack(env, s.db, s.temps, n, patch, order, next, hi);
    ShownAnswer(c, where, read, w, fastSees);
    ShownAnswer(c, where, ReadBack(env, end, n, 0, hi), w, generalSees);
    PassingAlone(where, w, fastSees, generalSees, read);
  }

  lemma {:induction false} PatchedKept(t: Table, patch: Row, ident: Col, order: seq<Value>, count: nat)
    requires (forall k :: k in order ==> k in t) && count <= |order| && Movable(t, patch, ident, order)
             && Keyed(t, ident) && Null !in t
    ensures Keyed(Patched(t, patch, ident, order, count), ident) && Null !in Patched(t, patch, ident, order, count)
  {
    if count > 0 {
      PatchedKept(t, patch, ident, order, count - 1);
    }
  }
}
