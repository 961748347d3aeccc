/**
 The answer of a write: the select, where, order_by, distinct, limit and offset of its query over the rows it
 wrote (query/sql.go), and which queries the fast path takes (query/write_fast.go).
 */
module WriteAnswer {
  import opened Wrappers
  import opened WriteTree
  import opened WriteStatements

  // ---- expressions ----------------------------------------------------------------------------------------

  /** The expressions of a select, a where or an order; `Other` may look at anything. */
  datatype Expr =
    | Lit(v: Value)
    | Param(name: string)
    | Column(own: bool, path: seq<Col>)
    | Chosen(col: Col, plain: bool)
    | Unary(op: nat, e: Expr)
    | Binary(op: nat, l: Expr, r: Expr)
    | Dot(l: Expr, r: Expr)
    | Between(lo: Expr, x: Expr, hi: Expr)
    | OneOf(x: Expr, candidates: seq<Expr>)
    | Other(id: nat)

  /** What the database computes with: parameters, operators, truth and the order of values. */
  datatype World = World(params: string -> Value, unary: (nat, Value) -> Value, binary: (nat, Value, Value) -> Value,
                         between: (Value, Value, Value) -> Value, oneOf: (Value, seq<Value>) -> Value,
                         isTrue: Value -> bool, before: (Value, Value) -> bool)

  /** What an expression sees beyond the row's own columns: joins, aggregates, computed fields. */
  type Sight = (Expr, Row) -> Value

  /** plainRowExpr: literals, parameters and the relation's own plain columns, combined with operators. */
  predicate PlainRow(e: Expr)
    decreases e, 0
  {
    match e
    case Lit(_) => true
    case Param(_) => true
    case Column(own, path) => own && |path| == 1
    case Chosen(_, plain) => plain
    case Unary(_, x) => PlainRow(x)
    case Binary(_, l, r) => PlainRow(l) && PlainRow(r)
    case Dot(_, _) => false
    case Between(lo, x, hi) => PlainRow(lo) && PlainRow(x) && PlainRow(hi)
    case OneOf(x, candidates) => PlainRow(x) && PlainRows(candidates)
    case Other(_) => false
  }

  predicate PlainRows(es: seq<Expr>)
    decreases es, 0
  {
    es == [] || (PlainRow(es[0]) && PlainRows(es[1..]))
  }

  /** The value of an expression on a row; `seen` answers for what is not the row's own columns. */
  function Eval(e: Expr, r: Row, w: World, seen: Sight): Value
    decreases e, 0
  {
    match e
    case Lit(v) => v
    case Param(name) => w.params(name)
    case Column(own, path) => if own && |path| == 1 then Get(r, path[0]) else seen(e, r)
    case Chosen(col, plain) => if plain then Get(r, col) else seen(e, r)
    case Unary(op, x) => w.unary(op, Eval(x, r, w, seen))
    case Binary(op, l, x) => w.binary(op, Eval(l, r, w, seen), Eval(x, r, w, seen))
    case Dot(_, _) => seen(e, r)
    case Between(lo, x, hi) => w.between(Eval(lo, r, w, seen), Eval(x, r, w, seen), Eval(hi, r, w, seen))
    case OneOf(x, candidates) => w.oneOf(Eval(x, r, w, seen), EvalAll(candidates, r, w, seen))
    case Other(_) => seen(e, r)
  }

  function EvalAll(es: seq<Expr>, r: Row, w: World, seen: Sight): seq<Value>
    decreases es, 0
  {
    if es == [] then [] else [Eval(es[0], r, w, seen)] + EvalAll(es[1..], r, w, seen)
  }

  /** Rows with the same columns. */
  ghost predicate Alike(r: Row, s: Row) {
    forall c :: Get(r, c) == Get(s, c)
  }

  /** An eligible expression says the same of a returned row as of the row in its table. */
  lemma {:induction false} PlainAlone(e: Expr, r: Row, s: Row, w: World, a: Sight, b: Sight)
    requires PlainRow(e) && Alike(r, s)
    ensures Eval(e, r, w, a) == Eval(e, s, w, b)
    decreases e, 0
  {
    match e
    case Unary(_, x) => PlainAlone(x, r, s, w, a, b);
    case Binary(_, l, x) => PlainAlone(l, r, s, w, a, b); PlainAlone(x, r, s, w, a, b);
    case Between(lo, x, hi) =>
      PlainAlone(lo, r, s, w, a, b);
      PlainAlone(x, r, s, w, a, b);
      PlainAlone(hi, r, s, w, a, b);
    case OneOf(x, candidates) => PlainAlone(x, r, s, w, a, b); PlainAllAlone(candidates, r, s, w, a, b);
    case _ =>
  }

  lemma {:induction false} PlainAllAlone(es: seq<Expr>, r: Row, s: Row, w: World, a: Sight, b: Sight)
    requires PlainRows(es) && Alike(r, s)
    ensures EvalAll(es, r, w, a) == EvalAll(es, s, w, b)
    decreases es, 0
  {
    if es != [] {
      PlainAlone(es[0], r, s, w, a, b);
      PlainAllAlone(es[1..], r, s, w, a, b);
    }
  }

  // ---- the query and which ones are eligible ------------------------------------------------------------------

  datatype Direction = Asc | Desc | AscNullsFirst | DescNullsLast

  datatype Term = Term(e: Expr, dir: Direction)

  /** A field of the select: a column of the relation, an expression, or an embedded child. */
  datatype Field = Own(col: Col) | Computed(e: Expr) | Embedded(child: nat)

  /** The reading half of a write query; `shaped` is a star, an object or a get, not a scalar. */
  datatype Query = Query(shaped: bool, fields: seq<Field>, where: Option<Expr>, orderBy: seq<Term>,
                         distinct: bool, distinctOn: seq<Expr>, limit: Option<nat>, offset: nat)

  datatype Options = Options(noFastPath: bool, stats: bool, sql: bool, queryPlan: bool)

  predicate PlainField(f: Field) {
    f.Own? || (f.Computed? && PlainRow(f.e))
  }

  /** fastWriteEligible, but for the write mode and the tree. */
  predicate EligibleQuery(q: Query, o: Options) {
    && !o.noFastPath && !o.stats && !o.sql && !o.queryPlan
    && q.shaped
    && (forall f :: f in q.fields ==> PlainField(f))
    && (q.where.Some? ==> PlainRow(q.where.value))
    && (forall t :: t in q.orderBy ==> PlainRow(t.e))
    && PlainRows(q.distinctOn)
  }

  /** The parts of an expression that are not themselves put together by operators. */
  function Leaves(e: Expr): set<Expr>
    decreases e, 0
  {
    match e
    case Unary(_, x) => Leaves(x)
    case Binary(_, l, r) => Leaves(l) + Leaves(r)
    case Between(lo, x, hi) => Leaves(lo) + Leaves(x) + Leaves(hi)
    case OneOf(x, candidates) => Leaves(x) + AllLeaves(candidates)
    case _ => {e}
  }

  function AllLeaves(es: seq<Expr>): set<Expr>
    decreases es, 0
  {
    if es == [] then {} else Leaves(es[0]) + AllLeaves(es[1..])
  }

  /** A literal, a parameter, or a column of the row itself. */
  predicate OfRow(e: Expr) {
    e.Lit? || e.Param? || (e.Column? && e.own && |e.path| == 1) || (e.Chosen? && e.plain)
  }

  /** The expressions of a query. */
  function Looks(q: Query): set<Expr> {
    (set f | f in q.fields && f.Computed? :: f.e) + (if q.where.Some? then {q.where.value} else {})
    + (set t | t in q.orderBy :: t.e) + (set e | e in q.distinctOn)
  }

  lemma LeafPlain(e: Expr)
    requires !e.Unary? && !e.Binary? && !e.Between? && !e.OneOf?
    ensures Leaves(e) == {e} && (PlainRow(e) <==> OfRow(e))
  {
  }

  /** Every leaf is of the row. */
  ghost predicate AllOfRow(xs: set<Expr>) {
    forall x :: x in xs ==> OfRow(x)
  }

  lemma AllOfBoth(a: set<Expr>, b: set<Expr>)
    ensures AllOfRow(a + b) <==> AllOfRow(a) && AllOfRow(b)
  {
    hide OfRow;
    if AllOfRow(a + b) {
      assert forall x :: x in a || x in b ==> x in a + b;
    }
  }

  lemma {:induction false} PlainIff(e: Expr)
    ensures PlainRow(e) <==> AllOfRow(Leaves(e))
    decreases e, 0
  {
    hide AllOfRow, OfRow;
    match e
    case Unary(_, x) => PlainIff(x);
    case Binary(_, l, r) =>
      PlainIff(l);
      PlainIff(r);
      AllOfBoth(Leaves(l), Leaves(r));
    case Between(lo, x, hi) =>
      PlainIff(lo);
      PlainIff(x);
      PlainIff(hi);
      AllOfBoth(Leaves(lo), Leaves(x));
      AllOfBoth(Leaves(lo) + Leaves(x), Leaves(hi));
    case OneOf(x, candidates) =>
      PlainIff(x);
      AllPlainIff(candidates);
      AllOfBoth(Leaves(x), AllLeaves(candidates));
    case _ =>
      LeafPlain(e);
      OneOfRow(e);
  }

  lemma NoneOfRow()
    ensures AllOfRow({})
  {
  }

  lemma OneOfRow(e: Expr)
    ensures AllOfRow({e}) <==> OfRow(e)
  {
    assert e in {e};
  }

  lemma {:induction false} AllPlainIff(es: seq<Expr>)
    ensures PlainRows(es) <==> AllOfRow(AllLeaves(es))
    ensures PlainRows(es) <==> forall e :: e in es ==> PlainRow(e)
    decreases es, 0
  {
    hide AllOfRow, OfRow, PlainRow, Leaves;
    if es == [] {
      NoneOfRow();
    } else {
      PlainIff(es[0]);
      AllPlainIff(es[1..]);
      AllOfBoth(Leaves(es[0]), AllLeaves(es[1..]));
      assert es == [es[0]] + es[1..];
    }
  }

  /** The fast path takes exactly the queries that look at the row alone, when no option asks for more. */
  lemma EligibleIff(q: Query, o: Options)
    ensures EligibleQuery(q, o)
            <==> && o == Options(false, false, false, false) && q.shaped && (forall f :: f in q.fields ==> !f.Embedded?)
                 && forall e, x :: e in Looks(q) && x in Leaves(e) ==> OfRow(x)
  {
    hide PlainRow, PlainRows, Leaves, OfRow;
    forall e ensures PlainRow(e) <==> forall x :: x in Leaves(e) ==> OfRow(x) {
      PlainIff(e);
    }
    AllPlainIff(q.distinctOn);
    if forall e, x :: e in Looks(q) && x in Leaves(e) ==> OfRow(x) {
      forall f | f in q.fields && f.Computed? ensures PlainRow(f.e) {
        assert f.e in Looks(q);
      }
      forall t | t in q.orderBy ensures PlainRow(t.e) {
        assert t.e in Looks(q);
      }
      assert forall e :: e in q.distinctOn ==> e in Looks(q);
      assert q.where.Some? ==> q.where.value in Looks(q);
    }
  }

  // ---- what PostgreSQL allows -----------------------------------------------------------------------------------

  /** The order of a response: its query's own, that of the row ids, or none. */
  datatype Order = Explicit(terms: seq<Term>) | ByRow | Unordered

  function Exprs(terms: seq<Term>): seq<Expr> {
    if terms == [] then [] else [terms[0].e] + Exprs(terms[1..])
  }

  function FieldExpr(f: Field): Expr {
    match f
    case Own(c) => Column(true, [c])
    case Computed(e) => e
    case Embedded(i) => Other(i)
  }

  /** How many leading terms are expressions of the distinct_on. */
  function Leading(terms: seq<Term>, on: seq<Expr>): nat {
    if terms == [] || terms[0].e !in on then 0 else 1 + Leading(terms[1..], on)
  }

  /**
   PostgreSQL refuses a distinct whose order is not selected, and a distinct on whose order leaves the expressions
   before it has gone through all of them.
   */
  predicate Allowed(q: Query, o: Order) {
    if !q.distinct && q.distinctOn == [] then true
    else
      match o
      case Unordered => true
      case ByRow => false
      case Explicit(terms) =>
        if q.distinct then forall t :: t in terms ==> exists f :: f in q.fields && FieldExpr(f) == t.e
        else
          var n := Leading(terms, q.distinctOn);
          n >= |terms| || forall e :: e in q.distinctOn ==> e in Exprs(terms[..n])
  }

  // ---- the answer ------------------------------------------------------------------------------------------------

  /** All that the rows of an answer are told apart by. */
  datatype Facts = Facts(keep: bool, keys: seq<Value>, on: seq<Value>, out: seq<Value>)

  function FieldValue(f: Field, r: Row, w: World, seen: Sight): Value {
    match f
    case Own(c) => Get(r, c)
    case Computed(e) => Eval(e, r, w, seen)
    case Embedded(i) => seen(Other(i), r)
  }

  function Fields(fs: seq<Field>, r: Row, w: World, seen: Sight): seq<Value> {
    if fs == [] then [] else [FieldValue(fs[0], r, w, seen)] + Fields(fs[1..], r, w, seen)
  }

  function Keys(terms: seq<Term>, r: Row, w: World, seen: Sight): seq<Value> {
    if terms == [] then [] else [Eval(terms[0].e, r, w, seen)] + Keys(terms[1..], r, w, seen)
  }

  function FactsOf(q: Query, r: Row, w: World, seen: Sight): Facts {
    Facts(q.where.Some? ==> w.isTrue(Eval(q.where.value, r, w, seen)), Keys(q.orderBy, r, w, seen),
          EvalAll(q.distinctOn, r, w, seen), Fields(q.fields, r, w, seen))
  }

  function AllFacts(q: Query, rows: seq<Row>, w: World, seen: Sight): seq<Facts> {
    if rows == [] then [] else [FactsOf(q, rows[0], w, seen)] + AllFacts(q, rows[1..], w, seen)
  }

  function Kept(fs: seq<Facts>): seq<Facts> {
    if fs == [] then [] else (if fs[0].keep then [fs[0]] else []) + Kept(fs[1..])
  }

  /** Whether one value sorts before another; nulls are last but where asked for first. */
  predicate Less(w: World, dir: Direction, a: Value, b: Value) {
    match dir
    case AscNullsFirst => if a == Null then b != Null else b != Null && w.before(a, b)
    case Asc => a != Null && (b == Null || w.before(a, b))
    case Desc => a != Null && (b == Null || w.before(b, a))
    case DescNullsLast => a != Null && (b == Null || w.before(b, a))
  }

  predicate LessKeys(w: World, terms: seq<Term>, a: seq<Value>, b: seq<Value>) {
    if terms == [] || a == [] || b == [] then false
    else Less(w, terms[0].dir, a[0], b[0]) || (!Less(w, terms[0].dir, b[0], a[0])
                                               && LessKeys(w, terms[1..], a[1..], b[1..]))
  }

  /** A row goes before the rows it sorts before, after those it does not. */
  function Place(w: World, terms: seq<Term>, f: Facts, fs: seq<Facts>): seq<Facts> {
    if fs == [] then [f]
    else
      var last := fs[|fs| - 1];
      if LessKeys(w, terms, f.keys, last.keys) then Place(w, terms, f, fs[..|fs| - 1]) + [last] else fs + [f]
  }

  /** The order_by; rows it does not tell apart stay in row order. */
  function Arranged(w: World, terms: seq<Term>, fs: seq<Facts>): seq<Facts> {
    if fs == [] then [] else Place(w, terms, fs[|fs| - 1], Arranged(w, terms, fs[..|fs| - 1]))
  }

  /** The first row of each group of rows with the same fields, or the same distinct_on. */
  function Firsts(q: Query, fs: seq<Facts>): seq<Facts> {
    if fs == [] then []
    else
      var done := Firsts(q, fs[..|fs| - 1]);
      var f := fs[|fs| - 1];
      if exists g :: g in done && (if q.distinct then g.out == f.out else g.on == f.on) then done else done + [f]
  }

  function Outs(fs: seq<Facts>): seq<seq<Value>> {
    if fs == [] then [] else [fs[0].out] + Outs(fs[1..])
  }

  function Page<T>(s: seq<T>, offset: nat, limit: Option<nat>): seq<T> {
    var rest := if offset <= |s| then s[offset..] else [];
    if limit.Some? && limit.value <= |rest| then rest[..limit.value] else rest
  }

  function Answer(q: Query, w: World, fs: seq<Facts>): seq<seq<Value>> {
    var sorted := Arranged(w, q.orderBy, Kept(fs));
    Outs(Page(if q.distinct || q.distinctOn != [] then Firsts(q, sorted) else sorted, q.offset, q.limit))
  }

  /** The response of a query over rows in row order; none when PostgreSQL refuses it. */
  function Respond(q: Query, o: Order, w: World, seen: Sight, rows: seq<Row>): Option<seq<seq<Value>>> {
    if Allowed(q, o) then Some(Answer(q, w, AllFacts(q, rows, w, seen))) else None
  }

  // ---- an eligible query answers from the rows alone ---------------------------------------------------------------

  lemma {:induction false} FieldsAlone(fs: seq<Field>, r: Row, s: Row, w: World, a: Sight, b: Sight)
    requires (forall f :: f in fs ==> PlainField(f)) && Alike(r, s)
    ensures Fields(fs, r, w, a) == Fields(fs, s, w, b)
  {
    hide Alike;
    if fs != [] {
      assert PlainField(fs[0]);
      if fs[0].Computed? {
        PlainAlone(fs[0].e, r, s, w, a, b);
      } else {
        SameColumn(r, s, fs[0].col);
      }
      FieldsAlone(fs[1..], r, s, w, a, b);
    }
  }

  lemma SameColumn(r: Row, s: Row, c: Col)
    requires Alike(r, s)
    ensures Get(r, c) == Get(s, c)
  {
  }

  lemma {:induction false} KeysAlone(terms: seq<Term>, r: Row, s: Row, w: World, a: Sight, b: Sight)
    requires (forall t :: t in terms ==> PlainRow(t.e)) && Alike(r, s)
    ensures Keys(terms, r, w, a) == Keys(terms, s, w, b)
  {
    hide Alike;
    if terms != [] {
      PlainAlone(terms[0].e, r, s, w, a, b);
      KeysAlone(terms[1..], r, s, w, a, b);
    }
  }

  ghost predicate AllAlike(x: seq<Row>, y: seq<Row>) {
    |x| == |y| && forall i :: 0 <= i < |x| ==> Alike(x[i], y[i])
  }

  lemma AlikeSelf(x: seq<Row>)
    ensures AllAlike(x, x)
  {
  }

  lemma {:induction false} FactsAlone(q: Query, o: Options, x: seq<Row>, y: seq<Row>, w: World, a: Sight, b: Sight)
    requires EligibleQuery(q, o) && AllAlike(x, y)
    ensures AllFacts(q, x, w, a) == AllFacts(q, y, w, b)
  {
    hide PlainRow, PlainRows, Eval, EvalAll, Keys, Fields, Alike;
    if x != [] {
      var r, s := x[0], y[0];
      if q.where.Some? {
        PlainAlone(q.where.value, r, s, w, a, b);
      }
      KeysAlone(q.orderBy, r, s, w, a, b);
      PlainAllAlone(q.distinctOn, r, s, w, a, b);
      FieldsAlone(q.fields, r, s, w, a, b);
      FactsAlone(q, o, x[1..], y[1..], w, a, b);
    }
  }

  /**
   However the two paths see what is not the row's own, an eligible query answers the same over rows with the same
   columns.
   */
  lemma RespondAlone(q: Query, o: Options, order: Order, x: seq<Row>, y: seq<Row>, w: World, a: Sight, b: Sight)
    requires EligibleQuery(q, o) && AllAlike(x, y)
    ensures Respond(q, order, w, a, x) == Respond(q, order, w, b, y)
  {
    hide AllFacts, EligibleQuery, Allowed, Answer, AllAlike;
    FactsAlone(q, o, x, y, w, a, b);
  }

  // ---- answers that show one column ---------------------------------------------------------------------------------

  /** The rows a where lets into the answer. */
  function Passing(where: Option<Expr>, w: World, seen: Sight, rows: seq<Row>): seq<Row> {
    if rows == [] then []
    else
      (if where.Some? ==> w.isTrue(Eval(where.value, rows[0], w, seen)) then [rows[0]]
                          else []) + Passing(where, w, seen, rows[1..])
  }

  ghost predicate PlainWhere(where: Option<Expr>) {
    where.Some? ==> PlainRow(where.value)
  }

  lemma {:induction false} PassingAlone(where: Option<Expr>, w: World, a: Sight, b: Sight, rows: seq<Row>)
    requires PlainWhere(where)
    ensures Passing(where, w, a, rows) == Passing(where, w, b, rows)
  {
    hide Eval, PlainRow;
    if rows != [] {
      if where.Some? {
        PlainAlone(where.value, rows[0], rows[0], w, a, b);
      }
      PassingAlone(where, w, a, b, rows[1..]);
    }
  }

  /** Rows with the same columns pass together. */
  lemma {:induction false} PassingAlike(where: Option<Expr>, w: World, seen: Sight, x: seq<Row>, y: seq<Row>)
    requires PlainWhere(where) && AllAlike(x, y)
    ensures AllAlike(Passing(where, w, seen, x), Passing(where, w, seen, y))
  {
    hide Eval, PlainRow, Alike;
    if x != [] {
      if where.Some? {
        PlainAlone(where.value, x[0], y[0], w, seen, seen);
      }
      PassingAlike(where, w, seen, x[1..], y[1..]);
    }
  }

  lemma {:induction false} AllPass(w: World, seen: Sight, rows: seq<Row>)
    ensures Passing(None, w, seen, rows) == rows
  {
    if rows != [] {
      AllPass(w, seen, rows[1..]);
      assert rows == [rows[0]] + rows[1..];
    }
  }

  /** select c where ..., in row order. */
  function ShowColumn(c: Col, where: Option<Expr>): Query {
    Query(true, [Own(c)], where, [], false, [], None, 0)
  }

  /** A column of rows, row by row. */
  function Shown(rows: seq<Row>, c: Col): seq<seq<Value>> {
    if rows == [] then [] else [[Get(rows[0], c)]] + Shown(rows[1..], c)
  }

  lemma {:induction false} Unsorted(w: World, fs: seq<Facts>)
    ensures Arranged(w, [], fs) == fs
  {
    if fs != [] {
      Unsorted(w, fs[..|fs| - 1]);
      assert fs == fs[..|fs| - 1] + [fs[|fs| - 1]];
    }
  }

  /** What the where does not let through is not kept. */
  lemma {:induction false} KeptFacts(q: Query, rows: seq<Row>, w: World, seen: Sight)
    ensures Kept(AllFacts(q, rows, w, seen)) == AllFacts(q.(where := None), Passing(q.where, w, seen, rows), w, seen)
  {
    hide Eval, EvalAll, Keys, Fields;
    if rows != [] {
      KeptFacts(q, rows[1..], w, seen);
      var fs := AllFacts(q, rows, w, seen);
      assert fs[1..] == AllFacts(q, rows[1..], w, seen);
      var more := Passing(q.where, w, seen, rows[1..]);
      if fs[0].keep {
        assert fs[0] == FactsOf(q.(where := None), rows[0], w, seen);
        assert ([rows[0]] + more)[1..] == more;
      } else {
        assert [] + more == more;
      }
    }
  }

  lemma {:induction false} ShownFacts(c: Col, rows: seq<Row>, w: World, seen: Sight)
    ensures Outs(AllFacts(ShowColumn(c, None), rows, w, seen)) == Shown(rows, c)
  {
    if rows != [] {
      ShownFacts(c, rows[1..], w, seen);
      var q := ShowColumn(c, None);
      var fs := AllFacts(q, rows, w, seen);
      assert fs[1..] == AllFacts(q, rows[1..], w, seen);
      assert fs[0].out == Fields(q.fields, rows[0], w, seen) == [Get(rows[0], c)] + Fields([], rows[0], w, seen);
      assert fs[0].out == [Get(rows[0], c)];
    }
  }

  lemma ShownAnswer(c: Col, where: Option<Expr>, rows: seq<Row>, w: World, seen: Sight)
    ensures Answer(ShowColumn(c, where), w, AllFacts(ShowColumn(c, where), rows, w, seen))
            == Shown(Passing(where, w, seen, rows), c)
  {
    hide AllFacts, Passing, Arranged, Outs, Shown;
    var q := ShowColumn(c, where);
    KeptFacts(q, rows, w, seen);
    assert q.(where := None) == ShowColumn(c, None);
    ShownFacts(c, Passing(where, w, seen, rows), w, seen);
    Unsorted(w, Kept(AllFacts(q, rows, w, seen)));
  }

  lemma {:induction false} ShownAlike(x: seq<Row>, y: seq<Row>, c: Col)
    requires Shown(x, c) == Shown(y, c)
    ensures |x| == |y| && forall i :: 0 <= i < |x| ==> Get(x[i], c) == Get(y[i], c)
  {
    if x == [] {
      assert y == [];
    } else {
      var sx, sy := Shown(x, c), Shown(y, c);
      assert sx[0] == [Get(x[0], c)] && sx[1..] == Shown(x[1..], c);
      assert y != [] && sy[0] == [Get(y[0], c)] && sy[1..] == Shown(y[1..], c);
      ShownAlike(x[1..], y[1..], c);
      assert sx[0][0] == sy[0][0];
      assert forall i :: 0 < i < |x| ==> x[i] == x[1..][i - 1] && y[i] == y[1..][i - 1];
    }
  }

  lemma AlikeByColumns(x: seq<Row>, y: seq<Row>)
    requires forall c :: Shown(x, c) == Shown(y, c)
    ensures AllAlike(x, y)
  {
    hide Shown;
    ShownAlike(x, y, 0);
    forall i | 0 <= i < |x| ensures Alike(x[i], y[i]) {
      forall c ensures Get(x[i], c) == Get(y[i], c) {
        ShownAlike(x, y, c);
      }
    }
  }

  /** What the where lets through decides the response. */
  lemma RespondPassing(q: Query, o: Options, order: Order, x: seq<Row>, y: seq<Row>, w: World, a: Sight, b: Sight)
    requires EligibleQuery(q, o) && AllAlike(Passing(q.where, w, a, x), Passing(q.where, w, a, y))
    ensures Respond(q, order, w, a, x) == Respond(q, order, w, b, y)
  {
    hide AllFacts, AllAlike, Arranged, Firsts, Page, Outs, Allowed, Passing, PlainRow, PlainRows;
    KeptFacts(q, x, w, a);
    KeptFacts(q, y, w, b);
    PassingAlone(q.where, w, a, b, y);
    FactsAlone(q.(where := None), o, Passing(q.where, w, a, x), Passing(q.where, w, a, y), w, a, b);
  }

  // ---- the answer is in order --------------------------------------------------------------------------------------

  ghost predicate Asymmetric(w: World) {
    forall a, b :: w.before(a, b) ==> !w.before(b, a)
  }

  lemma {:induction false} KeysAsymmetric(w: World, terms: seq<Term>, a: seq<Value>, b: seq<Value>)
    requires Asymmetric(w) && LessKeys(w, terms, a, b)
    ensures !LessKeys(w, terms, b, a)
  {
    if !Less(w, terms[0].dir, a[0], b[0]) {
      KeysAsymmetric(w, terms[1..], a[1..], b[1..]);
    }
  }

  /** No row sorts before the one ahead of it. */
  ghost predicate InOrder(w: World, terms: seq<Term>, fs: seq<Facts>) {
    forall i :: 0 < i < |fs| ==> !LessKeys(w, terms, fs[i].keys, fs[i - 1].keys)
  }

  lemma Longer(w: World, terms: seq<Term>, fs: seq<Facts>, f: Facts)
    requires InOrder(w, terms, fs) && (fs != [] ==> !LessKeys(w, terms, f.keys, fs[|fs| - 1].keys))
    ensures InOrder(w, terms, fs + [f])
  {
    hide LessKeys;
  }

  lemma Shorter(w: World, terms: seq<Term>, fs: seq<Facts>)
    requires InOrder(w, terms, fs) && fs != []
    ensures InOrder(w, terms, fs[..|fs| - 1])
    ensures |fs| > 1 ==> !LessKeys(w, terms, fs[|fs| - 1].keys, fs[|fs| - 2].keys)
  {
    hide LessKeys;
  }

  lemma {:induction false} Placed(w: World, terms: seq<Term>, f: Facts, fs: seq<Facts>)
    requires Asymmetric(w) && InOrder(w, terms, fs)
    ensures var p := Place(w, terms, f, fs);
            InOrder(w, terms, p) && p != [] && (p[|p| - 1] == f || (fs != [] && p[|p| - 1] == fs[|fs| - 1]))
  {
    hide LessKeys, Asymmetric, InOrder;
    if fs == [] {
      OneInOrder(w, terms, f);
    } else {
      var init, last := fs[..|fs| - 1], fs[|fs| - 1];
      if LessKeys(w, terms, f.keys, last.keys) {
        KeysAsymmetric(w, terms, f.keys, last.keys);
        Shorter(w, terms, fs);
        Placed(w, terms, f, init);
        Longer(w, terms, Place(w, terms, f, init), last);
      } else {
        Longer(w, terms, fs, f);
      }
    }
  }

  lemma OneInOrder(w: World, terms: seq<Term>, f: Facts)
    ensures InOrder(w, terms, [f]) && InOrder(w, terms, [])
  {
  }

  lemma {:induction false} PlacedAll(w: World, terms: seq<Term>, f: Facts, fs: seq<Facts>)
    ensures multiset(Place(w, terms, f, fs)) == multiset(fs) + multiset{f}
  {
    hide LessKeys;
    if fs != [] {
      assert fs == fs[..|fs| - 1] + [fs[|fs| - 1]];
      PlacedAll(w, terms, f, fs[..|fs| - 1]);
    }
  }

  /** The order_by sorts the rows and loses none. */
  lemma {:induction false} ArrangedInOrder(w: World, terms: seq<Term>, fs: seq<Facts>)
    requires Asymmetric(w)
    ensures InOrder(w, terms, Arranged(w, terms, fs)) && multiset(Arranged(w, terms, fs)) == multiset(fs)
  {
    hide LessKeys, Place, Asymmetric, InOrder;
    if fs == [] {
      OneInOrder(w, terms, Facts(true, [], [], []));
    } else {
      ArrangedInOrder(w, terms, fs[..|fs| - 1]);
      Placed(w, terms, fs[|fs| - 1], Arranged(w, terms, fs[..|fs| - 1]));
      PlacedAll(w, terms, fs[|fs| - 1], Arranged(w, terms, fs[..|fs| - 1]));
      assert fs == fs[..|fs| - 1] + [fs[|fs| - 1]];
    }
  }
}
