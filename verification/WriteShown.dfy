/**
 What a response holds, told from the rows alone: which rows, in which order, one of each group, which page of them
 (query/sql.go), for both paths of a write.
 */
module WriteShown {
  import opened Wrappers
  import opened WriteTree
  import opened WriteStatements
  import opened WriteMerge
  import opened WriteAnswer
  import opened WriteFast
  import opened WriteUpdate

  // ---- what PostgreSQL promises ---------------------------------------------------------------------------------

  /** `before` orders the values that are not null; values neither of which is before the other sort alike. */
  ghost predicate Ordering(w: World) {
    && (forall a, b :: w.before(a, b) ==> !w.before(b, a))
    && (forall a, b, c :: w.before(a, c) ==> w.before(a, b) || w.before(b, c))
  }

  /** Which of two values comes first in a direction. Two nulls sort alike, one is last unless asked for first. */
  predicate ComesFirst(w: World, dir: Direction, a: Value, b: Value) {
    if a == Null && b == Null then false
    else if a == Null then dir == AscNullsFirst
    else if b == Null then dir != AscNullsFirst
    else if dir == Desc || dir == DescNullsLast then w.before(b, a)
    else w.before(a, b)
  }

  predicate ByTerm(w: World, seen: Sight, t: Term, r: Row, s: Row) {
    ComesFirst(w, t.dir, Eval(t.e, r, w, seen), Eval(t.e, s, w, seen))
  }

  /** The first term that tells the rows apart, the k-th, puts one before the other. */
  ghost predicate AtTerm(w: World, seen: Sight, terms: seq<Term>, r: Row, s: Row, k: nat)
    requires k < |terms|
  {
    && ByTerm(w, seen, terms[k], r, s)
    && forall j :: 0 <= j < k ==> !ByTerm(w, seen, terms[j], r, s) && !ByTerm(w, seen, terms[j], s, r)
  }

  ghost predicate Sooner(w: World, seen: Sight, terms: seq<Term>, r: Row, s: Row) {
    exists k: nat :: k < |terms| && AtTerm(w, seen, terms, r, s, k)
  }

  /** Row a of the answer goes before row b: sooner, or alike and earlier. */
  ghost predicate Earlier(q: Query, w: World, seen: Sight, rows: seq<Row>, a: nat, b: nat)
    requires a < |rows| && b < |rows|
  {
    Sooner(w, seen, q.orderBy, rows[a], rows[b]) || (!Sooner(w, seen, q.orderBy, rows[b], rows[a]) && a < b)
  }

  predicate Passes(q: Query, w: World, seen: Sight, r: Row) {
    q.where == None || w.isTrue(Eval(q.where.value, r, w, seen))
  }

  /** The row numbers of exactly the rows that pass, in order. */
  ghost predicate Sorted(q: Query, w: World, seen: Sight, rows: seq<Row>, order: seq<nat>) {
    && (forall i :: 0 <= i < |order| ==> order[i] < |rows| && Passes(q, w, seen, rows[order[i]]))
    && (forall a :: 0 <= a < |rows| && Passes(q, w, seen, rows[a]) ==> a in order)
    && (forall i, j :: 0 <= i < j < |order| ==> order[i] != order[j] && Earlier(q, w, seen, rows, order[i], order[j]))
  }

  /** The value of a field of the select. */
  function Shows(f: Field, r: Row, w: World, seen: Sight): Value {
    if f.Own? then Get(r, f.col) else if f.Computed? then Eval(f.e, r, w, seen) else seen(Other(f.child), r)
  }

  /** Rows that a distinct, or a distinct on, keeps one of. */
  ghost predicate SameGroup(q: Query, w: World, seen: Sight, r: Row, s: Row) {
    if q.distinct then forall f :: f in q.fields ==> Shows(f, r, w, seen) == Shows(f, s, w, seen)
    else forall e :: e in q.distinctOn ==> Eval(e, r, w, seen) == Eval(e, s, w, seen)
  }

  ghost predicate Increasing(ps: seq<nat>, n: nat) {
    && (forall i :: 0 <= i < |ps| ==> ps[i] < n)
    && (forall i, j :: 0 <= i < j < |ps| ==> ps[i] < ps[j])
  }

  /**
   The places in the order that are shown: all of them, or with a distinct the first of each group, and none of a group
   twice.
   */
  ghost predicate Leaders(q: Query, w: World, seen: Sight, sorted: seq<Row>, ps: seq<nat>) {
    && Increasing(ps, |sorted|)
    && if !q.distinct && q.distinctOn == [] then |ps| == |sorted|
       else
         && (forall i, j :: 0 <= i < j < |ps| ==> !SameGroup(q, w, seen, sorted[ps[i]], sorted[ps[j]]))
         && forall p :: 0 <= p < |sorted| ==> Led(q, w, seen, sorted, ps, p)
  }

  ghost predicate Led(q: Query, w: World, seen: Sight, sorted: seq<Row>, ps: seq<nat>, p: nat)
    requires p < |sorted| && Increasing(ps, |sorted|)
  {
    exists i :: 0 <= i < |ps| && ps[i] <= p && SameGroup(q, w, seen, sorted[ps[i]], sorted[p])
  }

  /** The elements at some places, in their order. */
  function Picked<T>(s: seq<T>, at: seq<nat>): (r: seq<T>)
    requires forall i :: 0 <= i < |at| ==> at[i] < |s|
    ensures |r| == |at| && forall i :: 0 <= i < |at| ==> r[i] == s[at[i]]
  {
    seq(|at|, i requires 0 <= i < |at| => s[at[i]])
  }

  ghost predicate ShowsRow(q: Query, w: World, seen: Sight, r: Row, entry: seq<Value>) {
    |entry| == |q.fields| && forall j :: 0 <= j < |entry| ==> entry[j] == Shows(q.fields[j], r, w, seen)
  }

  function Least(a: nat, b: nat): nat {
    if a < b then a else b
  }

  /** Entry i shows leader offset + i, for as many as the limit lets through. */
  ghost predicate PageOf(q: Query, w: World, seen: Sight, leaders: seq<Row>, response: seq<seq<Value>>) {
    var rest := if q.offset < |leaders| then |leaders| - q.offset else 0;
    && |response| == (if q.limit.Some? then Least(q.limit.value, rest) else rest)
    && forall i :: 0 <= i < |response| ==> ShowsRow(q, w, seen, leaders[q.offset + i], response[i])
  }

  /** A response of a query over rows in row order. */
  ghost predicate Answers(q: Query, w: World, seen: Sight, rows: seq<Row>, response: seq<seq<Value>>) {
    exists order, ps ::
      Sorted(q, w, seen, rows, order) && Leaders(q, w, seen, Picked(rows, order), ps)
      && PageOf(q, w, seen, Picked(Picked(rows, order), ps), response)
  }

  /**
   PostgreSQL takes a distinct only in an order of selected expressions, and a distinct on only in an order that
   starts with the expressions of it, all of them before any other.
   */
  ghost predicate Permitted(q: Query, o: Order) {
    || (!q.distinct && q.distinctOn == [])
    || o.Unordered?
    || (o.Explicit? && if q.distinct then forall t :: t in o.terms ==> Selected(q, t.e) else Prefixed(q, o.terms))
  }

  predicate Selected(q: Query, e: Expr) {
    exists f :: f in q.fields && match f
                                 case Own(c) => e == Column(true, [c])
                                 case Computed(x) => e == x
                                 case Embedded(i) => e == Other(i)
  }

  ghost predicate Prefixed(q: Query, terms: seq<Term>) {
    exists n: nat :: n <= |terms| && OnFirst(q, terms, n)
  }

  ghost predicate OnFirst(q: Query, terms: seq<Term>, n: nat)
    requires n <= |terms|
  {
    && (forall i :: 0 <= i < n ==> terms[i].e in q.distinctOn)
    && (n == |terms| || forall e :: e in q.distinctOn ==> exists i :: 0 <= i < n && terms[i].e == e)
  }

  // ---- entry by entry ---------------------------------------------------------------------------------------------

  lemma {:induction false} FactsAt(q: Query, rows: seq<Row>, w: World, seen: Sight)
    ensures |AllFacts(q, rows, w, seen)| == |rows|
    ensures forall i :: 0 <= i < |rows| ==> AllFacts(q, rows, w, seen)[i] == FactsOf(q, rows[i], w, seen)
  {
    hide FactsOf;
    if rows != [] {
      FactsAt(q, rows[1..], w, seen);
      var fs := AllFacts(q, rows, w, seen);
      assert fs[1..] == AllFacts(q, rows[1..], w, seen);
      assert forall i :: 0 < i < |rows| ==> rows[i] == rows[1..][i - 1] && fs[i] == fs[1..][i - 1];
    }
  }

  lemma {:induction false} FieldsAt(fs: seq<Field>, r: Row, w: World, seen: Sight)
    ensures |Fields(fs, r, w, seen)| == |fs|
    ensures forall j :: 0 <= j < |fs| ==> Fields(fs, r, w, seen)[j] == Shows(fs[j], r, w, seen)
  {
    hide Eval;
    if fs != [] {
      FieldsAt(fs[1..], r, w, seen);
    }
  }

  lemma {:induction false} ValuesAt(es: seq<Expr>, r: Row, w: World, seen: Sight)
    ensures |EvalAll(es, r, w, seen)| == |es|
    ensures forall j :: 0 <= j < |es| ==> EvalAll(es, r, w, seen)[j] == Eval(es[j], r, w, seen)
  {
    hide Eval;
    if es != [] {
      ValuesAt(es[1..], r, w, seen);
    }
  }

  lemma {:induction false} OutsAt(fs: seq<Facts>)
    ensures |Outs(fs)| == |fs| && forall i :: 0 <= i < |fs| ==> Outs(fs)[i] == fs[i].out
  {
    if fs != [] {
      OutsAt(fs[1..]);
    }
  }

  lemma EvalLeaf(w: World, seen: Sight, r: Row, v: Value, name: string, c: Col)
    ensures Eval(Lit(v), r, w, seen) == v && Eval(Param(name), r, w, seen) == w.params(name)
    ensures Eval(Column(true, [c]), r, w, seen) == Eval(Chosen(c, true), r, w, seen) == Get(r, c)
  {
  }

  lemma EvalOperator(w: World, seen: Sight, r: Row, op: nat, x: Expr, y: Expr, z: Expr)
    ensures Eval(Unary(op, x), r, w, seen) == w.unary(op, Eval(x, r, w, seen))
    ensures Eval(Binary(op, x, y), r, w, seen) == w.binary(op, Eval(x, r, w, seen), Eval(y, r, w, seen))
    ensures Eval(Between(x, y, z), r, w, seen)
            == w.between(Eval(x, r, w, seen), Eval(y, r, w, seen), Eval(z, r, w, seen))
  {
  }

  lemma EvalOneOf(w: World, seen: Sight, r: Row, x: Expr, es: seq<Expr>)
    ensures Eval(OneOf(x, es), r, w, seen)
            == w.oneOf(Eval(x, r, w, seen), seq(|es|, i requires 0 <= i < |es| => Eval(es[i], r, w, seen)))
  {
    hide EvalAll;
    ValuesAt(es, r, w, seen);
    assert EvalAll(es, r, w, seen) == seq(|es|, i requires 0 <= i < |es| => Eval(es[i], r, w, seen));
  }

  lemma EvalOther(w: World, seen: Sight, r: Row)
    ensures forall e: Expr :: (e.Column? || e.Chosen? || e.Dot? || e.Other?) && !OfRow(e) ==>
                                Eval(e, r, w, seen) == seen(e, r)
  {
  }

  /** What an expression is on a row: literals, parameters and columns as they are, operators over their operands. */
  lemma EvalMeans(w: World, seen: Sight, r: Row, op: nat, v: Value, name: string, c: Col, x: Expr, y: Expr, z: Expr,
                  es: seq<Expr>)
    ensures Eval(Lit(v), r, w, seen) == v && Eval(Param(name), r, w, seen) == w.params(name)
    ensures Eval(Column(true, [c]), r, w, seen) == Eval(Chosen(c, true), r, w, seen) == Get(r, c)
    ensures Eval(Unary(op, x), r, w, seen) == w.unary(op, Eval(x, r, w, seen))
    ensures Eval(Binary(op, x, y), r, w, seen) == w.binary(op, Eval(x, r, w, seen), Eval(y, r, w, seen))
    ensures Eval(Between(x, y, z), r, w, seen)
            == w.between(Eval(x, r, w, seen), Eval(y, r, w, seen), Eval(z, r, w, seen))
    ensures Eval(OneOf(x, es), r, w, seen)
            == w.oneOf(Eval(x, r, w, seen), seq(|es|, i requires 0 <= i < |es| => Eval(es[i], r, w, seen)))
    ensures forall e: Expr :: (e.Column? || e.Chosen? || e.Dot? || e.Other?) && !OfRow(e) ==>
                                Eval(e, r, w, seen) == seen(e, r)
  {
    hide Eval, OfRow;
    EvalLeaf(w, seen, r, v, name, c);
    EvalOperator(w, seen, r, op, x, y, z);
    EvalOneOf(w, seen, r, x, es);
    EvalOther(w, seen, r);
  }

  // ---- the order --------------------------------------------------------------------------------------------------

  lemma LessIff(w: World, dir: Direction, a: Value, b: Value)
    ensures Less(w, dir, a, b) <==> ComesFirst(w, dir, a, b)
  {
  }

  /** The comparison of keys goes by the first term that tells the rows apart. */
  lemma {:induction false} SoonerIff(w: World, seen: Sight, terms: seq<Term>, r: Row, s: Row)
    ensures LessKeys(w, terms, Keys(terms, r, w, seen), Keys(terms, s, w, seen)) <==> Sooner(w, seen, terms, r, s)
  {
    hide Eval, Less, ComesFirst;
    if terms != [] {
      var t, rest := terms[0], terms[1..];
      SoonerIff(w, seen, rest, r, s);
      LessIff(w, t.dir, Eval(t.e, r, w, seen), Eval(t.e, s, w, seen));
      LessIff(w, t.dir, Eval(t.e, s, w, seen), Eval(t.e, r, w, seen));
      if ByTerm(w, seen, t, r, s) {
        assert AtTerm(w, seen, terms, r, s, 0);
      } else if !ByTerm(w, seen, t, s, r) {
        SoonerRest(w, seen, terms, r, s);
      } else {
        assert forall k: nat :: 0 < k < |terms| ==> !AtTerm(w, seen, terms, r, s, k);
      }
    }
  }

  lemma SoonerRest(w: World, seen: Sight, terms: seq<Term>, r: Row, s: Row)
    requires terms != [] && !ByTerm(w, seen, terms[0], r, s) && !ByTerm(w, seen, terms[0], s, r)
    ensures Sooner(w, seen, terms, r, s) <==> Sooner(w, seen, terms[1..], r, s)
  {
    hide ByTerm;
    if Sooner(w, seen, terms, r, s) {
      var k: nat :| k < |terms| && AtTerm(w, seen, terms, r, s, k);
      assert AtTerm(w, seen, terms[1..], r, s, k - 1);
    }
    if Sooner(w, seen, terms[1..], r, s) {
      var k: nat :| k < |terms[1..]| && AtTerm(w, seen, terms[1..], r, s, k);
      forall j | 0 <= j < k + 1 ensures !ByTerm(w, seen, terms[j], r, s) && !ByTerm(w, seen, terms[j], s, r) {
        if j > 0 {
          assert terms[j] == terms[1..][j - 1];
        }
      }
      assert AtTerm(w, seen, terms, r, s, k + 1);
    }
  }

  lemma LessOrdering(w: World, dir: Direction, a: Value, b: Value, c: Value)
    requires Ordering(w)
    ensures Less(w, dir, a, b) ==> !Less(w, dir, b, a)
    ensures Less(w, dir, a, c) ==> Less(w, dir, a, b) || Less(w, dir, b, c)
  {
  }

  lemma {:induction false} KeysOrdering(w: World, terms: seq<Term>, a: seq<Value>, b: seq<Value>, c: seq<Value>)
    requires Ordering(w) && |a| == |b| == |c| == |terms|
    ensures LessKeys(w, terms, a, b) ==> !LessKeys(w, terms, b, a)
    ensures LessKeys(w, terms, a, c) ==> LessKeys(w, terms, a, b) || LessKeys(w, terms, b, c)
  {
    hide Less, Ordering;
    if terms != [] {
      KeysOrdering(w, terms[1..], a[1..], b[1..], c[1..]);
      LessOrdering(w, terms[0].dir, a[0], b[0], c[0]);
      LessOrdering(w, terms[0].dir, b[0], c[0], a[0]);
      LessOrdering(w, terms[0].dir, c[0], a[0], b[0]);
    }
  }

  // ---- the rows kept, by their numbers ----------------------------------------------------------------------------

  /** Entries of one list are those of another at some places. */
  predicate From<T(==)>(s: seq<T>, of: seq<T>, at: seq<nat>) {
    |s| == |at| && forall i :: 0 <= i < |s| ==> at[i] < |of| && s[i] == of[at[i]]
  }

  /** Every number below n that a list holds. */
  predicate Listed(at: seq<nat>, a: nat) {
    exists i :: 0 <= i < |at| && at[i] == a
  }

  function Shifted(at: seq<nat>): (r: seq<nat>)
    ensures |r| == |at| && forall i :: 0 <= i < |at| ==> r[i] == at[i] + 1
  {
    seq(|at|, i requires 0 <= i < |at| => at[i] + 1)
  }

  /** The places of what is kept. */
  ghost predicate KeptPlaces(fs: seq<Facts>, at: seq<nat>) {
    && From(WriteAnswer.Kept(fs), fs, at) && Increasing(at, |fs|)
    && (forall i :: 0 <= i < |at| ==> fs[at[i]].keep)
    && forall a :: 0 <= a < |fs| && fs[a].keep ==> Listed(at, a)
  }

  lemma {:induction false} KeptAt(fs: seq<Facts>) returns (at: seq<nat>)
    ensures KeptPlaces(fs, at)
  {
    if fs == [] {
      at := [];
    } else {
      hide KeptPlaces, WriteAnswer.Kept, From, Increasing, Listed;
      var rest := KeptAt(fs[1..]);
      at := if fs[0].keep then [0] + Shifted(rest) else Shifted(rest);
      KeptMore(fs, rest);
      KeptAll(fs, rest);
      assert KeptPlaces(fs, at) by { KeptBoth(fs, at); }
    }
  }

  lemma KeptBoth(fs: seq<Facts>, at: seq<nat>)
    requires From(WriteAnswer.Kept(fs), fs, at) && Increasing(at, |fs|)
    requires forall i :: 0 <= i < |at| ==> at[i] < |fs| && fs[at[i]].keep
    requires forall a :: 0 <= a < |fs| && fs[a].keep ==> Listed(at, a)
    ensures KeptPlaces(fs, at)
  {
    hide WriteAnswer.Kept, From, Increasing, Listed;
  }

  lemma KeptMore(fs: seq<Facts>, rest: seq<nat>)
    requires fs != [] && KeptPlaces(fs[1..], rest)
    ensures var at := if fs[0].keep then [0] + Shifted(rest) else Shifted(rest);
            && From(WriteAnswer.Kept(fs), fs, at) && Increasing(at, |fs|)
            && forall i :: 0 <= i < |at| ==> at[i] < |fs| && fs[at[i]].keep
  {
    hide Listed, KeptPlaces, From, Increasing;
    var more := Shifted(rest);
    ShiftedFrom(fs, rest);
    if fs[0].keep {
      var at := [0] + more;
      assert From(WriteAnswer.Kept(fs), fs, at) by { FromHead(WriteAnswer.Kept(fs[1..]), fs, more); }
      assert Increasing(at, |fs|) by { IncreasingHead(more, |fs|); }
    } else {
      assert [] + WriteAnswer.Kept(fs[1..]) == WriteAnswer.Kept(fs[1..]);
    }
  }

  lemma ShiftedFrom(fs: seq<Facts>, rest: seq<nat>)
    requires fs != [] && KeptPlaces(fs[1..], rest)
    ensures From(WriteAnswer.Kept(fs[1..]), fs, Shifted(rest)) && Increasing(Shifted(rest), |fs|)
    ensures forall i :: 0 <= i < |rest| ==> 0 < Shifted(rest)[i] < |fs| && fs[Shifted(rest)[i]].keep
  {
    hide Listed, WriteAnswer.Kept;
    var more := Shifted(rest);
    forall i | 0 <= i < |rest| ensures more[i] < |fs| && fs[more[i]] == fs[1..][rest[i]] && fs[1..][rest[i]].keep {
    }
  }

  lemma FromHead(s: seq<Facts>, fs: seq<Facts>, more: seq<nat>)
    requires fs != [] && From(s, fs, more)
    ensures From([fs[0]] + s, fs, [0] + more)
  {
  }

  lemma IncreasingHead(more: seq<nat>, n: nat)
    requires 0 < n && Increasing(more, n) && forall i :: 0 <= i < |more| ==> 0 < more[i]
    ensures Increasing([0] + more, n)
  {
  }

  lemma KeptAll(fs: seq<Facts>, rest: seq<nat>)
    requires fs != [] && KeptPlaces(fs[1..], rest)
    ensures var at := if fs[0].keep then [0] + Shifted(rest) else Shifted(rest);
            forall a :: 0 <= a < |fs| && fs[a].keep ==> Listed(at, a)
  {
    hide WriteAnswer.Kept, From, Increasing;
    var more := Shifted(rest);
    var at := if fs[0].keep then [0] + more else more;
    forall a | 0 <= a < |fs| && fs[a].keep ensures Listed(at, a) {
      if a > 0 {
        assert fs[1..][a - 1] == fs[a] && Listed(rest, a - 1);
        var i :| 0 <= i < |rest| && rest[i] == a - 1;
        assert at[|at| - |more| + i] == a;
      } else {
        assert at[0] == 0;
      }
    }
  }

  /** Two facts in the order of a stable sort: the first is not after the second, and before it if not told apart. */
  predicate Ranked(w: World, terms: seq<Term>, f: Facts, g: Facts, a: nat, b: nat) {
    LessKeys(w, terms, f.keys, g.keys) || (!LessKeys(w, terms, g.keys, f.keys) && a < b)
  }

  ghost predicate Ranks(w: World, terms: seq<Term>, fs: seq<Facts>, at: seq<nat>)
    requires |fs| == |at|
  {
    forall i, j :: 0 <= i < j < |fs| ==> at[i] != at[j] && Ranked(w, terms, fs[i], fs[j], at[i], at[j])
  }

  ghost predicate KeysLong(fs: seq<Facts>, n: nat) {
    forall i :: 0 <= i < |fs| ==> |fs[i].keys| == n
  }

  /** Where a row is placed: before those it sorts before, after the last it does not. */
  lemma {:induction false} PlaceAt(w: World, terms: seq<Term>, f: Facts, fs: seq<Facts>) returns (p: nat)
    ensures p <= |fs| && Place(w, terms, f, fs) == fs[..p] + [f] + fs[p..]
    ensures forall i :: p <= i < |fs| ==> LessKeys(w, terms, f.keys, fs[i].keys)
    ensures p > 0 ==> !LessKeys(w, terms, f.keys, fs[p - 1].keys)
  {
    hide LessKeys;
    p := |fs|;
    if fs != [] {
      var init, last := fs[..|fs| - 1], fs[|fs| - 1];
      if LessKeys(w, terms, f.keys, last.keys) {
        p := PlaceAt(w, terms, f, init);
        assert fs[..p] == init[..p] && fs[p..] == init[p..] + [last];
      }
    }
  }

  /** The rows before its place go before it, those from there on after it. */
  lemma PlaceRanked(w: World, terms: seq<Term>, f: Facts, fs: seq<Facts>, at: seq<nat>, p: nat, n: nat, i: nat)
    requires Ordering(w) && KeysLong(fs, |terms|) && |f.keys| == |terms| && |fs| == |at| && p <= |fs| && i < |fs|
    requires Ranks(w, terms, fs, at) && at[i] < n
    requires i >= p ==> LessKeys(w, terms, f.keys, fs[i].keys)
    requires p > 0 ==> !LessKeys(w, terms, f.keys, fs[p - 1].keys)
    ensures i < p ==> Ranked(w, terms, fs[i], f, at[i], n)
    ensures i >= p ==> Ranked(w, terms, f, fs[i], n, at[i])
  {
    hide LessKeys, Ordering;
    if i < p - 1 {
      assert Ranked(w, terms, fs[i], fs[p - 1], at[i], at[p - 1]);
      KeysOrdering(w, terms, f.keys, fs[p - 1].keys, fs[i].keys);
      KeysOrdering(w, terms, fs[i].keys, fs[p - 1].keys, f.keys);
    } else if i >= p {
      KeysOrdering(w, terms, f.keys, fs[i].keys, f.keys);
    }
  }

  /** A row put in its place by number. */
  lemma RankedPlace(w: World, terms: seq<Term>, f: Facts, fs: seq<Facts>, at: seq<nat>, p: nat, n: nat)
    requires Ordering(w) && KeysLong(fs, |terms|) && |f.keys| == |terms| && |fs| == |at| && p <= |fs|
    requires Ranks(w, terms, fs, at) && forall i :: 0 <= i < |at| ==> at[i] < n
    requires forall i :: p <= i < |fs| ==> LessKeys(w, terms, f.keys, fs[i].keys)
    requires p > 0 ==> !LessKeys(w, terms, f.keys, fs[p - 1].keys)
    ensures Ranks(w, terms, fs[..p] + [f] + fs[p..], at[..p] + [n] + at[p..])
  {
    hide LessKeys, Ordering, Ranked, Ranks;
    var gs, bs := fs[..p] + [f] + fs[p..], at[..p] + [n] + at[p..];
    forall i, j | 0 <= i < j < |gs| ensures bs[i] != bs[j] && Ranked(w, terms, gs[i], gs[j], bs[i], bs[j]) {
      Spliced(fs, p, f, i);
      Spliced(fs, p, f, j);
      Spliced(at, p, n, i);
      Spliced(at, p, n, j);
      if j == p {
        PlaceRanked(w, terms, f, fs, at, p, n, i);
      } else if i == p {
        PlaceRanked(w, terms, f, fs, at, p, n, j - 1);
      } else {
        RanksPair(w, terms, fs, at, if i < p then i else i - 1, if j < p then j else j - 1);
      }
    }
    RanksAll(w, terms, gs, bs);
  }

  lemma Spliced<T>(s: seq<T>, p: nat, x: T, i: nat)
    requires p <= |s| && i <= |s|
    ensures (s[..p] + [x] + s[p..])[i] == if i < p then s[i] else if i == p then x else s[i - 1]
  {
  }

  lemma RanksPair(w: World, terms: seq<Term>, fs: seq<Facts>, at: seq<nat>, i: nat, j: nat)
    requires |fs| == |at| && Ranks(w, terms, fs, at) && i < j < |fs|
    ensures at[i] != at[j] && Ranked(w, terms, fs[i], fs[j], at[i], at[j])
  {
  }

  lemma RanksAll(w: World, terms: seq<Term>, fs: seq<Facts>, at: seq<nat>)
    requires |fs| == |at|
    requires forall i, j :: 0 <= i < j < |fs| ==> at[i] != at[j] && Ranked(w, terms, fs[i], fs[j], at[i], at[j])
    ensures Ranks(w, terms, fs, at)
  {
  }

  lemma {:induction false} ArrangedAt(w: World, terms: seq<Term>, fs: seq<Facts>) returns (at: seq<nat>)
    requires Ordering(w) && KeysLong(fs, |terms|)
    ensures From(Arranged(w, terms, fs), fs, at) && Ranks(w, terms, Arranged(w, terms, fs), at)
    ensures forall a :: 0 <= a < |fs| ==> Listed(at, a)
  {
    hide LessKeys, Ordering, Place, Ranks, Ranked;
    if fs == [] {
      at := [];
      NoRanks(w, terms);
    } else {
      var n := |fs| - 1;
      var before := ArrangedAt(w, terms, fs[..n]);
      var s := Arranged(w, terms, fs[..n]);
      var p := PlaceAt(w, terms, fs[n], s);
      at := before[..p] + [n] + before[p..];
      RankedPlace(w, terms, fs[n], s, before, p, n);
      forall a | 0 <= a < |fs| ensures Listed(at, a) {
        if a < n {
          assert Listed(before, a);
          var i :| 0 <= i < |before| && before[i] == a;
          assert at[if i < p then i else i + 1] == a;
        } else {
          assert at[p] == n;
        }
      }
    }
  }

  lemma NoRanks(w: World, terms: seq<Term>)
    ensures Ranks(w, terms, [], [])
  {
  }

  // ---- one row of each group ---------------------------------------------------------------------------------------

  predicate Same(q: Query, f: Facts, g: Facts) {
    if q.distinct then f.out == g.out else f.on == g.on
  }

  /** Some place at or before p holds facts of the same group. */
  ghost predicate LedAt(q: Query, fs: seq<Facts>, ps: seq<nat>, p: nat)
    requires p < |fs| && Increasing(ps, |fs|)
  {
    exists i :: 0 <= i < |ps| && ps[i] <= p && Same(q, fs[ps[i]], fs[p])
  }

  ghost predicate LeadersAt(q: Query, fs: seq<Facts>, ps: seq<nat>) {
    && Increasing(ps, |fs|)
    && (forall i, j :: 0 <= i < j < |ps| ==> !Same(q, fs[ps[i]], fs[ps[j]]))
    && forall p :: 0 <= p < |fs| ==> LedAt(q, fs, ps, p)
  }

  lemma {:induction false} FirstsAt(q: Query, fs: seq<Facts>) returns (ps: seq<nat>)
    ensures From(Firsts(q, fs), fs, ps) && LeadersAt(q, fs, ps)
  {
    hide Same, LeadersAt;
    if fs == [] {
      ps := [];
      NoLeaders(q);
    } else {
      hide Firsts, From;
      var n := |fs| - 1;
      var before := FirstsAt(q, fs[..n]);
      var done := Firsts(q, fs[..n]);
      FirstsStep(q, fs);
      FromMore(done, fs, before);
      if Grouped(q, done, fs[n]) {
        ps := before;
        LeadersKeep(q, fs, done, ps);
      } else {
        ps := before + [n];
        LeadersMore(q, fs, done, before);
      }
    }
  }

  ghost predicate Grouped(q: Query, done: seq<Facts>, f: Facts) {
    exists g :: g in done && Same(q, g, f)
  }

  lemma FromMore(done: seq<Facts>, fs: seq<Facts>, ps: seq<nat>)
    requires fs != [] && From(done, fs[..|fs| - 1], ps)
    ensures From(done, fs, ps) && From(done + [fs[|fs| - 1]], fs, ps + [|fs| - 1])
  {
  }

  lemma NoLeaders(q: Query)
    ensures LeadersAt(q, [], [])
  {
  }

  lemma FirstsStep(q: Query, fs: seq<Facts>)
    requires fs != []
    ensures var done, f := Firsts(q, fs[..|fs| - 1]), fs[|fs| - 1];
            Firsts(q, fs) == if Grouped(q, done, f) then done else done + [f]
  {
    var done, f := Firsts(q, fs[..|fs| - 1]), fs[|fs| - 1];
    assert Grouped(q, done, f)
           <==> exists g :: g in done && (if q.distinct then g.out == f.out else g.on == f.on);
  }

  /** One more row of a group that is there. */
  lemma LeadersKeep(q: Query, fs: seq<Facts>, done: seq<Facts>, ps: seq<nat>)
    requires fs != [] && LeadersAt(q, fs[..|fs| - 1], ps) && From(done, fs[..|fs| - 1], ps)
    requires Grouped(q, done, fs[|fs| - 1])
    ensures LeadersAt(q, fs, ps)
  {
    hide Same;
    var init := fs[..|fs| - 1];
    var g :| g in done && Same(q, g, fs[|fs| - 1]);
    var k :| 0 <= k < |done| && done[k] == g;
    assert fs[ps[k]] == g;
    forall p | 0 <= p < |fs| ensures LedAt(q, fs, ps, p) {
      if p < |init| {
        assert LedAt(q, init, ps, p);
      }
    }
    assert forall i, j :: 0 <= i < j < |ps| ==> !Same(q, init[ps[i]], init[ps[j]]);
  }

  /** One row of a new group. */
  lemma LeadersMore(q: Query, fs: seq<Facts>, done: seq<Facts>, ps: seq<nat>)
    requires fs != [] && LeadersAt(q, fs[..|fs| - 1], ps) && From(done, fs[..|fs| - 1], ps)
    requires !Grouped(q, done, fs[|fs| - 1])
    ensures LeadersAt(q, fs, ps + [|fs| - 1])
  {
    hide Same;
    var init, qs := fs[..|fs| - 1], ps + [|fs| - 1];
    forall i | 0 <= i < |ps| ensures !Same(q, fs[ps[i]], fs[|fs| - 1]) {
      assert done[i] in done;
    }
    forall p | 0 <= p < |fs| ensures LedAt(q, fs, qs, p) {
      if p < |init| {
        assert LedAt(q, init, ps, p);
        var i :| 0 <= i < |ps| && ps[i] <= p && Same(q, init[ps[i]], init[p]);
        assert qs[i] == ps[i];
      } else {
        assert qs[|ps|] == p && Same(q, fs[p], fs[p]) by { SameSelf(q, fs[p]); }
      }
    }
    assert forall i, j :: 0 <= i < j < |ps| ==> !Same(q, init[ps[i]], init[ps[j]]);
  }

  lemma SameSelf(q: Query, f: Facts)
    ensures Same(q, f, f)
  {
  }

  lemma SameIff(q: Query, w: World, seen: Sight, r: Row, s: Row)
    ensures Same(q, FactsOf(q, r, w, seen), FactsOf(q, s, w, seen)) <==> SameGroup(q, w, seen, r, s)
  {
    hide Eval, EvalAll, Fields, Keys, Shows;
    if q.distinct {
      FieldsAt(q.fields, r, w, seen);
      FieldsAt(q.fields, s, w, seen);
    } else {
      ValuesAt(q.distinctOn, r, w, seen);
      ValuesAt(q.distinctOn, s, w, seen);
    }
  }

  // ---- the response ---------------------------------------------------------------------------------------------

  lemma {:induction false} KeysAt(terms: seq<Term>, r: Row, w: World, seen: Sight)
    ensures |Keys(terms, r, w, seen)| == |terms|
  {
    if terms != [] {
      KeysAt(terms[1..], r, w, seen);
    }
  }

  lemma FactsRow(q: Query, rows: seq<Row>, w: World, seen: Sight, a: nat)
    requires a < |rows|
    ensures var fs := AllFacts(q, rows, w, seen);
            && |fs| == |rows| && fs[a] == FactsOf(q, rows[a], w, seen) && |fs[a].keys| == |q.orderBy|
            && fs[a].keep == Passes(q, w, seen, rows[a]) && fs[a].out == Fields(q.fields, rows[a], w, seen)
  {
    hide Eval, EvalAll, Fields, Keys, AllFacts;
    FactsAt(q, rows, w, seen);
    KeysAt(q.orderBy, rows[a], w, seen);
  }

  /** Facts in the order of the sort are rows in the order of the query. */
  lemma RankedIff(q: Query, w: World, seen: Sight, rows: seq<Row>, a: nat, b: nat, i: nat, j: nat)
    requires a < |rows| && b < |rows| && (i < j <==> a < b)
    requires var fs := AllFacts(q, rows, w, seen);
             |fs| == |rows| && Ranked(w, q.orderBy, fs[a], fs[b], i, j)
    ensures Earlier(q, w, seen, rows, a, b)
  {
    hide Eval, EvalAll, Fields, AllFacts, LessKeys, Sooner, Keys;
    FactsRow(q, rows, w, seen, a);
    FactsRow(q, rows, w, seen, b);
    SoonerIff(w, seen, q.orderBy, rows[a], rows[b]);
    SoonerIff(w, seen, q.orderBy, rows[b], rows[a]);
  }

  /** The rows of an answer, sorted, by their numbers. */
  lemma SortedAt(q: Query, w: World, seen: Sight, rows: seq<Row>) returns (order: seq<nat>)
    requires Ordering(w)
    ensures Sorted(q, w, seen, rows, order)
    ensures var fs := AllFacts(q, rows, w, seen);
            From(Arranged(w, q.orderBy, WriteAnswer.Kept(fs)), fs, order)
  {
    hide AllFacts, Arranged, WriteAnswer.Kept, LessKeys, Earlier, Ordering, Passes, FactsOf;
    var fs := AllFacts(q, rows, w, seen);
    FactsAt(q, rows, w, seen);
    var at := KeptAt(fs);
    var kept := WriteAnswer.Kept(fs);
    forall i | 0 <= i < |kept| ensures |kept[i].keys| == |q.orderBy| {
      FactsRow(q, rows, w, seen, at[i]);
    }
    var perm := ArrangedAt(w, q.orderBy, kept);
    order := Picked(at, perm);
    forall i | 0 <= i < |order| ensures order[i] < |rows| && Passes(q, w, seen, rows[order[i]]) {
      FactsRow(q, rows, w, seen, order[i]);
    }
    forall a | 0 <= a < |rows| && Passes(q, w, seen, rows[a]) ensures a in order {
      FactsRow(q, rows, w, seen, a);
      assert Listed(at, a);
      var i :| 0 <= i < |at| && at[i] == a;
      assert Listed(perm, i);
      var j :| 0 <= j < |perm| && perm[j] == i;
      assert order[j] == a;
    }
    forall i, j | 0 <= i < j < |order|
      ensures order[i] != order[j] && Earlier(q, w, seen, rows, order[i], order[j])
    {
      RankedIff(q, w, seen, rows, order[i], order[j], perm[i], perm[j]);
    }
  }

  /** The rows shown of the sorted rows. */
  lemma LeadersOf(q: Query, w: World, seen: Sight, rows: seq<Row>, order: seq<nat>, sorted: seq<Facts>)
    returns (ps: seq<nat>)
    requires Sorted(q, w, seen, rows, order) && From(sorted, AllFacts(q, rows, w, seen), order)
    ensures Leaders(q, w, seen, Picked(rows, order), ps)
    ensures From(if q.distinct || q.distinctOn != [] then Firsts(q, sorted) else sorted, sorted, ps)
  {
    hide AllFacts, Firsts, Same, SameGroup, Sorted, FactsOf;
    assert forall i :: 0 <= i < |order| ==> order[i] < |rows| by { SortedRange(q, w, seen, rows, order); }
    FactsAt(q, rows, w, seen);
    if q.distinct || q.distinctOn != [] {
      ps := FirstsAt(q, sorted);
      var rs := Picked(rows, order);
      forall i, j | 0 <= i < |rs| && 0 <= j < |rs|
        ensures Same(q, sorted[i], sorted[j]) <==> SameGroup(q, w, seen, rs[i], rs[j])
      {
        SameIff(q, w, seen, rs[i], rs[j]);
      }
      forall p | 0 <= p < |rs| ensures Led(q, w, seen, rs, ps, p) {
        assert LedAt(q, sorted, ps, p);
      }
    } else {
      ps := seq(|sorted|, i => i);
    }
  }

  lemma SortedRange(q: Query, w: World, seen: Sight, rows: seq<Row>, order: seq<nat>)
    requires Sorted(q, w, seen, rows, order)
    ensures forall i :: 0 <= i < |order| ==> order[i] < |rows|
  {
  }

  lemma PageAt<T>(s: seq<T>, offset: nat, limit: Option<nat>)
    ensures var rest := if offset < |s| then |s| - offset else 0;
            |Page(s, offset, limit)| == if limit.Some? then Least(limit.value, rest) else rest
    ensures forall i :: 0 <= i < |Page(s, offset, limit)| ==> Page(s, offset, limit)[i] == s[offset + i]
  {
  }

  /** The entries of a page show its rows. */
  lemma Entries(q: Query, w: World, seen: Sight, leaders: seq<Row>, shown: seq<Facts>)
    requires |shown| == |leaders|
    requires forall i :: 0 <= i < |shown| ==> shown[i] == FactsOf(q, leaders[i], w, seen)
    ensures PageOf(q, w, seen, leaders, Outs(Page(shown, q.offset, q.limit)))
  {
    hide Page, Outs, Fields, Eval, EvalAll, Keys, Shows;
    PageAt(shown, q.offset, q.limit);
    OutsAt(Page(shown, q.offset, q.limit));
    forall i | 0 <= i < |shown| ensures ShowsRow(q, w, seen, leaders[i], shown[i].out) {
      FieldsAt(q.fields, leaders[i], w, seen);
    }
  }

  lemma AnswerIs(q: Query, w: World, seen: Sight, rows: seq<Row>)
    requires Ordering(w)
    ensures Answers(q, w, seen, rows, Answer(q, w, AllFacts(q, rows, w, seen)))
  {
    hide AllFacts, Arranged, WriteAnswer.Kept, Firsts, Outs, Page, Ordering, FactsOf, Sorted, Leaders, PageOf;
    var fs := AllFacts(q, rows, w, seen);
    var order := SortedAt(q, w, seen, rows);
    SortedRange(q, w, seen, rows, order);
    var sorted := Arranged(w, q.orderBy, WriteAnswer.Kept(fs));
    var ps := LeadersOf(q, w, seen, rows, order, sorted);
    var shown := if q.distinct || q.distinctOn != [] then Firsts(q, sorted) else sorted;
    var leaders := Picked(Picked(rows, order), ps);
    FactsAt(q, rows, w, seen);
    forall i | 0 <= i < |shown| ensures shown[i] == FactsOf(q, leaders[i], w, seen) {
      assert shown[i] == sorted[ps[i]] == fs[order[ps[i]]];
    }
    Entries(q, w, seen, leaders, shown);
  }

  lemma {:induction false} ExprsAt(terms: seq<Term>)
    ensures |Exprs(terms)| == |terms| && forall i :: 0 <= i < |terms| ==> Exprs(terms)[i] == terms[i].e
  {
    if terms != [] {
      ExprsAt(terms[1..]);
    }
  }

  lemma {:induction false} LeadingAt(terms: seq<Term>, on: seq<Expr>)
    ensures var n := Leading(terms, on);
            n <= |terms| && (n < |terms| ==> terms[n].e !in on) && forall i :: 0 <= i < n ==> terms[i].e in on
  {
    if terms != [] && terms[0].e in on {
      LeadingAt(terms[1..], on);
      assert forall i :: 0 < i <= Leading(terms[1..], on) && i < |terms| ==> terms[i] == terms[1..][i - 1];
    }
  }

  lemma PrefixedIff(q: Query, terms: seq<Term>)
    ensures var n := Leading(terms, q.distinctOn);
            (n >= |terms| || forall e :: e in q.distinctOn ==> e in Exprs(terms[..n])) <==> Prefixed(q, terms)
  {
    hide Leading, Exprs;
    LeadingAt(terms, q.distinctOn);
    var n := Leading(terms, q.distinctOn);
    ExprsAt(terms[..n]);
    if n >= |terms| || forall e :: e in q.distinctOn ==> e in Exprs(terms[..n]) {
      forall e | e in q.distinctOn && n < |terms| ensures exists i :: 0 <= i < n && terms[i].e == e {
        var i :| 0 <= i < n && Exprs(terms[..n])[i] == e;
        assert terms[i].e == e;
      }
      assert OnFirst(q, terms, n);
    }
    if Prefixed(q, terms) && n < |terms| {
      var m: nat :| m <= |terms| && OnFirst(q, terms, m);
      assert m <= n;
      forall e | e in q.distinctOn ensures e in Exprs(terms[..n]) {
        var i :| 0 <= i < m && terms[i].e == e;
        assert Exprs(terms[..n])[i] == e;
      }
    }
  }

  lemma SelectedIff(q: Query, e: Expr)
    ensures Selected(q, e) <==> exists f :: f in q.fields && FieldExpr(f) == e
  {
    if Selected(q, e) {
      var f :| f in q.fields && match f
                                case Own(c) => e == Column(true, [c])
                                case Computed(x) => e == x
                                case Embedded(i) => e == Other(i);
      assert FieldExpr(f) == e;
    }
    if f :| f in q.fields && FieldExpr(f) == e {
      assert match f
             case Own(c) => e == Column(true, [c])
             case Computed(x) => e == x
             case Embedded(i) => e == Other(i);
    }
  }

  /** PostgreSQL takes the query exactly when its distinct and its order go together. */
  lemma PermittedIff(q: Query, o: Order)
    ensures Allowed(q, o) <==> Permitted(q, o)
  {
    hide Selected, Prefixed, FieldExpr, Leading, Exprs;
    if o.Explicit? && q.distinct {
      forall t | t in o.terms ensures Selected(q, t.e) <==> exists f :: f in q.fields && FieldExpr(f) == t.e {
        SelectedIff(q, t.e);
      }
    } else if o.Explicit? {
      PrefixedIff(q, o.terms);
    }
  }

  /** There is a response if and only if the query is permitted, and then it is the page of the rows that pass. */
  lemma ResponseIs(q: Query, o: Order, w: World, seen: Sight, rows: seq<Row>)
    requires Ordering(w)
    ensures Respond(q, o, w, seen, rows).Some? <==> Permitted(q, o)
    ensures Respond(q, o, w, seen, rows).Some? ==> Answers(q, w, seen, rows, Respond(q, o, w, seen, rows).value)
  {
    hide Allowed, Permitted, Answer, AllFacts, Answers, Ordering;
    PermittedIff(q, o);
    AnswerIs(q, w, seen, rows);
  }

  // ---- the rows both paths answer from -----------------------------------------------------------------------------

  /** The row a root temp row of the node names by its key. */
  ghost predicate Names(env: Env, s: State, n: Node, a: nat) {
    && a in s.temps && s.temps[a].rel == n.rel && s.temps[a].node == n.id && s.temps[a].parent == None
    && Get(s.temps[a].vals, env.ident(n.rel)) in TableOf(s.db, n.rel)
  }

  /** The rows that root temp rows name, by row id. */
  ghost predicate NamedRows(env: Env, s: State, n: Node, hi: nat, ids: seq<nat>, rows: seq<Row>) {
    && Increasing(ids, hi) && |rows| == |ids|
    && (forall i :: 0 <= i < |ids| ==>
          Names(env, s, n, ids[i])
          && rows[i] == TableOf(s.db, n.rel)[Get(s.temps[ids[i]].vals, env.ident(n.rel))])
    && forall a: nat :: a < hi && Names(env, s, n, a) ==> Listed(ids, a)
  }

  lemma {:induction false} ReadBackIs(env: Env, s: State, n: Node, hi: nat) returns (ids: seq<nat>)
    ensures NamedRows(env, s, n, hi, ids, ReadBack(env, s, n, 0, hi))
    decreases hi
  {
    if hi == 0 {
      ids := [];
    } else {
      hide NamedRows;
      var before := ReadBackIs(env, s, n, hi - 1);
      ids := if Names(env, s, n, hi - 1) then before + [hi - 1] else before;
      OneMore(env, s, n, hi, before, ReadBack(env, s, n, 0, hi - 1));
      if !Names(env, s, n, hi - 1) {
        assert ReadBack(env, s, n, 0, hi - 1) + [] == ReadBack(env, s, n, 0, hi - 1);
      }
    }
  }

  lemma OneMore(env: Env, s: State, n: Node, hi: nat, ids: seq<nat>, rows: seq<Row>)
    requires hi > 0 && NamedRows(env, s, n, hi - 1, ids, rows)
    ensures if Names(env, s, n, hi - 1) then
              NamedRows(env, s, n, hi, ids + [hi - 1],
                        rows + [TableOf(s.db, n.rel)[Get(s.temps[hi - 1].vals, env.ident(n.rel))]])
            else NamedRows(env, s, n, hi, ids, rows)
  {
    hide Names;
    var more := ids + [hi - 1];
    if Names(env, s, n, hi - 1) {
      forall a: nat | a < hi && Names(env, s, n, a) ensures Listed(more, a) {
        if a < hi - 1 {
          assert Listed(ids, a);
          var i :| 0 <= i < |ids| && ids[i] == a;
          assert more[i] == a;
        } else {
          assert more[|ids|] == a;
        }
      }
    }
  }

  /** The general path answers from the rows of the last state that the payload's rows name, in payload order. */
  lemma GeneralShown(env: Env, s: State, tn: Nodes, n: Node, q: Query, w: World, seen: Sight, rows: seq<TempRow>,
                     hi: nat, end: State) returns (ids: seq<nat>, named: seq<Row>)
    requires Ordering(w)
    ensures NamedRows(env, end, n, hi, ids, named)
    ensures var r := GeneralWrite(env, s, tn, n, q, w, seen, rows, hi, end);
            && (r.Some? <==> GeneralRun(env, s, tn, n, rows).Some?
                             && Permitted(q, if q.orderBy == [] then ByRow else Explicit(q.orderBy)))
            && (r.Some? ==> Answers(q, w, seen, named, r.value.response))
  {
    hide Respond, Answers, Permitted, Ordering, GeneralRun, ReadBack;
    ids := ReadBackIs(env, end, n, hi);
    named := ReadBack(env, end, n, 0, hi);
    ResponseIs(q, GeneralOrder(q), w, seen, named);
  }

  /** The row a fast statement returns for row a of its parameter: for an update, only if it was there. */
  ghost predicate Returns(env: Env, t0: Table, t: Table, n: Node, res: map<nat, Row>, a: nat) {
    a in res && Get(res[a], env.ident(n.rel)) in t
    && (n.mode == UPDATE_EXISTING ==> Get(res[a], env.ident(n.rel)) in t0)
  }

  ghost predicate ReturnedRows(env: Env, t0: Table, t: Table, n: Node, res: map<nat, Row>, count: nat, ids: seq<nat>,
                               rows: seq<Row>) {
    && Increasing(ids, count + 1) && |rows| == |ids|
    && (forall i :: 0 <= i < |ids| ==>
          0 < ids[i] && Returns(env, t0, t, n, res, ids[i]) && rows[i] == t[Get(res[ids[i]], env.ident(n.rel))])
    && forall a: nat :: 0 < a <= count && Returns(env, t0, t, n, res, a) ==> Listed(ids, a)
  }

  lemma {:induction false} ReturnedIs(env: Env, t0: Table, t: Table, n: Node, res: map<nat, Row>, count: nat)
    returns (ids: seq<nat>)
    ensures ReturnedRows(env, t0, t, n, res, count, ids, Returned(env, t0, t, n, res, count))
  {
    if count == 0 {
      ids := [];
    } else {
      hide ReturnedRows;
      var before := ReturnedIs(env, t0, t, n, res, count - 1);
      var rows := Returned(env, t0, t, n, res, count - 1);
      ids := if Returns(env, t0, t, n, res, count) then before + [count] else before;
      OneReturned(env, t0, t, n, res, count, before, rows);
      if !Returns(env, t0, t, n, res, count) {
        assert rows + [] == rows;
      }
    }
  }

  lemma OneReturned(env: Env, t0: Table, t: Table, n: Node, res: map<nat, Row>, count: nat, ids: seq<nat>,
                    rows: seq<Row>)
    requires count > 0 && ReturnedRows(env, t0, t, n, res, count - 1, ids, rows)
    ensures if Returns(env, t0, t, n, res, count) then
              ReturnedRows(env, t0, t, n, res, count, ids + [count], rows + [t[Get(res[count], env.ident(n.rel))]])
            else ReturnedRows(env, t0, t, n, res, count, ids, rows)
  {
    hide Returns;
    var more := ids + [count];
    if Returns(env, t0, t, n, res, count) {
      forall a: nat | 0 < a <= count && Returns(env, t0, t, n, res, a) ensures Listed(more, a) {
        if a < count {
          assert Listed(ids, a);
          var i :| 0 <= i < |ids| && ids[i] == a;
          assert more[i] == a;
        } else {
          assert more[|ids|] == a;
        }
      }
    }
  }

  /** The fast path answers from the rows its statement left under the identities of its payload, in payload order. */
  lemma FastShown(env: Env, db: map<Rel, Table>, n: Node, q: Query, w: World, seen: Sight, rows: seq<TempRow>)
    returns (ids: seq<nat>, named: seq<Row>)
    requires Ordering(w)
    ensures var r := FastWrite(env, db, n, q, w, seen, rows);
            && (rows == [] ==> r == Some(Written(TableOf(db, n.rel), [])))
            && (rows != [] ==>
                  (r.Some? <==> Run(env, State(db, FastTemps(rows)), FastNodes(n), Site(n, Root)).Some?
                                && Permitted(q, if q.orderBy != [] then Explicit(q.orderBy)
                                                else if n.mode == UPDATE_EXISTING then ByRow else Unordered)))
            && (rows != [] && r.Some? ==>
                  && ReturnedRows(env, TableOf(db, n.rel), r.value.table, n,
                                  Resolved(env, FastTemps(rows), FastNodes(n), Site(n, Root), Columns(env, n)), |rows|,
                                  ids, named)
                  && Answers(q, w, seen, named, r.value.response))
  {
    hide Respond, Answers, Permitted, Ordering, Resolved, Returned, Run, FastTemps, FastNodes, Columns;
    ids, named := [], [];
    if rows != [] {
      var s := Run(env, State(db, FastTemps(rows)), FastNodes(n), Site(n, Root));
      if s.Some? {
        var t0, t := TableOf(db, n.rel), TableOf(s.value.db, n.rel);
        var res := Resolved(env, FastTemps(rows), FastNodes(n), Site(n, Root), Columns(env, n));
        ids := ReturnedIs(env, t0, t, n, res, |rows|);
        named := Returned(env, t0, t, n, res, |rows|);
        ResponseIs(q, FastOrder(q, n.mode), w, seen, named);
      }
    }
  }

  // ---- an update with a where --------------------------------------------------------------------------------------

  /** The identity a patched row ends up with. */
  function Lands(t: Table, patch: Row, ident: Col, k: Value): Value
    requires k in t
  {
    if ident in patch then patch[ident] else Get(t[k], ident)
  }

  /** A patched row: the columns of the patch, and its own for the rest. */
  ghost predicate Rewritten(r: Row, old_: Row, patch: Row) {
    r.Keys == old_.Keys + patch.Keys && forall c :: c in r ==> r[c] == if c in patch then patch[c] else old_[c]
  }

  /** Two rows would end up with one identity, or one with none. */
  ghost predicate Collides(t: Table, patch: Row, ident: Col, order: seq<Value>)
    requires forall k :: k in order ==> k in t
  {
    || (exists i :: 0 <= i < |order| && Lands(t, patch, ident, order[i]) == Null)
    || (exists i, j :: 0 <= i < j < |order| && Lands(t, patch, ident, order[i]) == Lands(t, patch, ident, order[j]))
    || (exists i :: 0 <= i < |order| && Lands(t, patch, ident, order[i]) in t
                    && Lands(t, patch, ident, order[i]) !in order)
  }

  /** The table after an update: rows it did not select as they were, the others rewritten, and no more. */
  ghost predicate UpdatedTo(t: Table, t': Table, patch: Row, ident: Col, order: seq<Value>)
    requires forall k :: k in order ==> k in t
  {
    && (forall k :: k in t && k !in order ==> k in t' && t'[k] == t[k])
    && (forall i :: 0 <= i < |order| ==> Lands(t, patch, ident, order[i]) in t'
                                         && Rewritten(t'[Lands(t, patch, ident, order[i])], t[order[i]], patch))
    && (forall k :: k in t' ==> (k in t && k !in order) || Landed(t, patch, ident, order, k))
  }

  ghost predicate Landed(t: Table, patch: Row, ident: Col, order: seq<Value>, k: Value)
    requires forall k :: k in order ==> k in t
  {
    exists i :: 0 <= i < |order| && Lands(t, patch, ident, order[i]) == k
  }

  lemma MovableIff(t: Table, patch: Row, ident: Col, order: seq<Value>)
    requires forall k :: k in order ==> k in t
    ensures Movable(t, patch, ident, order) <==> !Collides(t, patch, ident, order)
    ensures forall k :: k in t ==> NewIdent(t, patch, ident, k) == Lands(t, patch, ident, k)
  {
    forall k | k in t ensures NewIdent(t, patch, ident, k) == Lands(t, patch, ident, k) {
    }
    hide NewIdent, Lands;
    if !Movable(t, patch, ident, order) {
      if i, k :| 0 <= i < |order| && k in t && k !in order && NewIdent(t, patch, ident, order[i]) == k {
        assert Lands(t, patch, ident, order[i]) in t;
      }
    }
  }

  lemma {:induction false} PatchedTable(t: Table, patch: Row, ident: Col, order: seq<Value>, count: nat)
    requires (forall k :: k in order ==> k in t) && count <= |order| && Movable(t, patch, ident, order)
    ensures var t' := Patched(t, patch, ident, order, count);
            && (forall k :: k in t && k !in order ==> k in t' && t'[k] == t[k])
            && forall k :: k in t' ==> (k in t && k !in order) || Landed(t, patch, ident, order, k)
  {
    hide NewIdent, Lands, Landed, Movable;
    if count > 0 {
      PatchedTable(t, patch, ident, order, count - 1);
      LandsApart(t, patch, ident, order, count - 1);
    }
  }

  /** A moved row comes under no identity of a row that stays. */
  lemma LandsApart(t: Table, patch: Row, ident: Col, order: seq<Value>, i: nat)
    requires (forall k :: k in order ==> k in t) && i < |order| && Movable(t, patch, ident, order)
    ensures var k := NewIdent(t, patch, ident, order[i]); !(k in t && k !in order) && Landed(t, patch, ident, order, k)
  {
    hide NewIdent, Lands;
    MovableIff(t, patch, ident, order);
    assert Lands(t, patch, ident, order[i]) == NewIdent(t, patch, ident, order[i]);
  }

  lemma PatchedTo(t: Table, patch: Row, ident: Col, order: seq<Value>)
    requires (forall k :: k in order ==> k in t) && Movable(t, patch, ident, order)
    ensures UpdatedTo(t, Patched(t, patch, ident, order, |order|), patch, ident, order)
  {
    hide Movable, Patched, NewIdent, Lands, Landed;
    PatchedTable(t, patch, ident, order, |order|);
    MovableIff(t, patch, ident, order);
    forall i | 0 <= i < |order|
      ensures Lands(t, patch, ident, order[i]) in Patched(t, patch, ident, order, |order|)
              && Rewritten(Patched(t, patch, ident, order, |order|)[Lands(t, patch, ident, order[i])], t[order[i]],
                           patch)
    {
      PatchedRow(t, patch, ident, order, |order|, i);
    }
  }

  lemma {:induction false} PatchReturnedAt(t: Table, patch: Row, order: seq<Value>, count: nat)
    requires (forall k :: k in order ==> k in t) && count <= |order|
    ensures |PatchReturned(t, patch, order, count)| == count
    ensures forall i :: 0 <= i < count ==> Rewritten(PatchReturned(t, patch, order, count)[i], t[order[i]], patch)
  {
    if count > 0 {
      PatchReturnedAt(t, patch, order, count - 1);
    }
  }

  /**
   An update is refused if and only if identities collide or the order is not permitted; else it rewrites the rows its
   where selected and answers from them.
   */
  lemma UpdateShown(env: Env, db: map<Rel, Table>, n: Node, q: Query, w: World, seen: Sight, patch: Row,
                    order: seq<Value>) returns (rows: seq<Row>)
    requires Ordering(w) && forall k :: k in order ==> k in TableOf(db, n.rel)
    ensures |rows| == |order|
    ensures forall i :: 0 <= i < |rows| ==> Rewritten(rows[i], TableOf(db, n.rel)[order[i]], patch)
    ensures var t, r := TableOf(db, n.rel), FastUpdate(env, db, n, q, w, seen, patch, order);
            && (r.None? <==> Collides(t, patch, env.ident(n.rel), order)
                             || !Permitted(q, if q.orderBy != [] then Explicit(q.orderBy) else Unordered))
            && (r.Some? ==> UpdatedTo(t, r.value.table, patch, env.ident(n.rel), order)
                            && Answers(q, w, seen, rows, r.value.response))
  {
    hide Movable, Patched, Collides, Permitted, UpdatedTo, Answers, Respond, Ordering, Rewritten;
    var t := TableOf(db, n.rel);
    rows := PatchReturned(t, patch, order, |order|);
    PatchReturnedAt(t, patch, order, |order|);
    MovableIff(t, patch, env.ident(n.rel), order);
    ResponseIs(q, FastUpdateOrder(q), w, seen, rows);
    if Movable(t, patch, env.ident(n.rel), order) {
      PatchedTo(t, patch, env.ident(n.rel), order);
    }
  }
}
