/**
 Reading and writing through a select (query/shape.go, query/write_denormalize.go, query/write_dml.go): which
 columns a select makes writable, and the laws that tie what it reads to what it writes.
 */
module Lens {
  import opened Wrappers
  import opened WriteTree

  /**
   A select: a column, the first of some columns that is not null, an object, a star with more fields, or anything
   else.
   */
  datatype Expr =
    | Bare(col: string)
    | Coalesce(cols: seq<string>)
    | Object(fields: seq<Field>)
    | Star(except: set<string>, extra: seq<Field>)
    | Opaque(id: nat, args: seq<Expr>)

  datatype Field = Field(key: string, value: Expr)

  datatype Relation = Relation(columns: seq<string>, generated: set<string>)

  type Row = map<string, Json>

  /** What opaque expressions evaluate to. */
  type Meaning = (nat, Row) -> Json

  function Cell(row: Row, col: string): Json {
    if col in row then row[col] else JNull
  }

  /** What a coalesce of columns shows. */
  function FirstOf(row: Row, cols: seq<string>): Json {
    if cols == [] then JNull else if Cell(row, cols[0]) != JNull then Cell(row, cols[0]) else FirstOf(row, cols[1..])
  }

  // ---- reading -----------------------------------------------------------------------------------------

  function Read(rel: Relation, e: Expr, row: Row, m: Meaning): Json
    decreases e, 0
  {
    match e
    case Bare(col) => Cell(row, col)
    case Coalesce(cols) => FirstOf(row, cols)
    case Object(fields) => JObject(ReadFields(rel, fields, row, m))
    case Star(except, extra) => JObject(ReadOwn(rel.columns, except, row) + ReadFields(rel, extra, row, m))
    case Opaque(id, _) => m(id, row)
  }

  function ReadFields(rel: Relation, fields: seq<Field>, row: Row, m: Meaning): map<string, Json>
    decreases fields, 0
  {
    if fields == [] then map[]
    else ReadFields(rel, fields[1..], row, m)[fields[0].key := Read(rel, fields[0].value, row, m)]
  }

  function ReadOwn(columns: seq<string>, except: set<string>, row: Row): map<string, Json> {
    map c | c in columns && c !in except :: Cell(row, c)
  }

  // ---- what may be written ---------------------------------------------------------------------------------

  /**
   A column met in the select: where, whether untransformed, whether under no opaque expression, and what it is shown
   among.
   */
  datatype Occ = Occ(col: string, path: seq<string>, clean: bool, direct: bool, shown: seq<string>)

  /** walkSelectForWritability: a field of an object starts clean again, even below an opaque expression. */
  function Occs(rel: Relation, e: Expr, path: seq<string>, clean: bool, direct: bool): seq<Occ>
    decreases e, 0
  {
    match e
    case Bare(col) => [Occ(col, path, clean, direct, [col])]
    case Coalesce(cols) => ColumnOccs(cols, path, clean, direct, cols)
    case Object(fields) => FieldOccs(rel, fields, path, direct)
    case Star(except, extra) => OwnOccs(rel, rel.columns, except, path, direct) + FieldOccs(rel, extra, path, direct)
    case Opaque(_, args) => ArgOccs(rel, args, path)
  }

  /** The columns of a coalesce, all at its path. */
  function ColumnOccs(cols: seq<string>, path: seq<string>, clean: bool, direct: bool, shown: seq<string>): seq<Occ> {
    if cols == [] then [] else [Occ(cols[0], path, clean, direct, shown)]
                               + ColumnOccs(cols[1..], path, clean, direct, shown)
  }

  function FieldOccs(rel: Relation, fields: seq<Field>, path: seq<string>, direct: bool): seq<Occ>
    decreases fields, 0
  {
    if fields == [] then []
    else Occs(rel, fields[0].value, path + [fields[0].key], true, direct) + FieldOccs(rel, fields[1..], path, direct)
  }

  function ArgOccs(rel: Relation, args: seq<Expr>, path: seq<string>): seq<Occ>
    decreases args, 0
  {
    if args == [] then [] else Occs(rel, args[0], path, false, false) + ArgOccs(rel, args[1..], path)
  }

  /** recordOwnColumns: all but the excepted and the generated ones. */
  function OwnOccs(rel: Relation, columns: seq<string>, except: set<string>, path: seq<string>,
                   direct: bool): seq<Occ> {
    if columns == [] then []
    else
      (if columns[0] in except || columns[0] in rel.generated then []
       else [Occ(columns[0], path + [columns[0]], true, direct, [columns[0]])])
      + OwnOccs(rel, columns[1..], except, path, direct)
  }

  function CountOf(occs: seq<Occ>, col: string): nat {
    if occs == [] then 0 else (if occs[0].col == col then 1 else 0) + CountOf(occs[1..], col)
  }

  /** An extractor of the select: a column met exactly once, and clean. */
  ghost predicate IsExtractor(occs: seq<Occ>, o: Occ) {
    o in occs && o.clean && CountOf(occs, o.col) == 1
  }

  /** What the accumulator holds of a column: how often it was met, whether always clean, a place. */
  ghost predicate Entry(occs: seq<Occ>, c: string, count: nat, clean: bool, path: seq<string>) {
    && count == CountOf(occs, c) && count > 0
    && (clean <==> forall o :: o in occs && o.col == c ==> o.clean)
    && exists o :: o in occs && o.col == c && o.path == path
  }

  lemma RecordCounts(occs: seq<Occ>, o: Occ)
    ensures forall c :: CountOf(occs + [o], c) == CountOf(occs, c) + (if c == o.col then 1 else 0)
  {
    forall c ensures CountOf(occs + [o], c) == CountOf(occs, c) + (if c == o.col then 1 else 0) {
      CountJoin(occs, [o], c);
      CountOne(o, c);
    }
  }

  lemma NewEntry(occs: seq<Occ>, o: Occ)
    requires CountOf(occs, o.col) == 0
    ensures Entry(occs + [o], o.col, 1, o.clean, o.path)
  {
    hide CountOf;
    RecordCounts(occs, o);
    SeenIff(occs, o.col);
    var all := occs + [o];
    assert o in all && forall x :: x in all <==> x in occs || x == o;
  }

  lemma AgainEntry(occs: seq<Occ>, o: Occ, count: nat, clean: bool, path: seq<string>)
    requires Entry(occs, o.col, count, clean, path)
    ensures Entry(occs + [o], o.col, count + 1, clean && o.clean, path)
  {
    hide CountOf;
    RecordCounts(occs, o);
    var all := occs + [o];
    assert o in all && forall x :: x in all <==> x in occs || x == o;
    var x :| x in occs && x.col == o.col && x.path == path;
    assert x in all;
  }

  lemma OtherEntry(occs: seq<Occ>, o: Occ, c: string, count: nat, clean: bool, path: seq<string>)
    requires Entry(occs, c, count, clean, path) && c != o.col
    ensures Entry(occs + [o], c, count, clean, path)
  {
    hide CountOf;
    RecordCounts(occs, o);
    var all := occs + [o];
    assert forall x :: x in all <==> x in occs || x == o;
    var x :| x in occs && x.col == c && x.path == path;
    assert x in all;
  }

  ghost predicate Agrees(occs: seq<Occ>, occurrences: map<string, nat>, clean: map<string, bool>, paths: map<string,
                         seq<string>>) {
    && occurrences.Keys == clean.Keys == paths.Keys
    && (forall c :: c in occurrences <==> CountOf(occs, c) > 0)
    && (forall c :: c in occurrences ==> Entry(occs, c, occurrences[c], clean[c], paths[c]))
  }

  lemma AgreesKeys(occs: seq<Occ>, occurrences: map<string, nat>, clean: map<string, bool>, paths: map<string,
                   seq<string>>)
    requires Agrees(occs, occurrences, clean, paths)
    ensures occurrences.Keys == clean.Keys == paths.Keys
  {
  }

  function Bumped(m: map<string, nat>, c: string): map<string, nat> {
    m[c := if c in m then m[c] + 1 else 1]
  }

  function Anded(m: map<string, bool>, c: string, b: bool): map<string, bool> {
    m[c := if c in m then m[c] && b else b]
  }

  function Kept(m: map<string, seq<string>>, c: string, p: seq<string>): map<string, seq<string>> {
    if c in m then m else m[c := p]
  }

  lemma RecordAgrees(occs: seq<Occ>, occurrences: map<string, nat>, clean: map<string, bool>, paths: map<string,
                     seq<string>>, o: Occ)
    requires Agrees(occs, occurrences, clean, paths)
    ensures Agrees(occs + [o], Bumped(occurrences, o.col), Anded(clean, o.col, o.clean), Kept(paths, o.col, o.path))
  {
    hide Entry, CountOf;
    RecordCounts(occs, o);
    if o.col in occurrences {
      AgainEntry(occs, o, occurrences[o.col], clean[o.col], paths[o.col]);
    } else {
      NewEntry(occs, o);
    }
    forall c | c in occurrences && c != o.col ensures Entry(occs + [o], c, occurrences[c], clean[c], paths[c]) {
      OtherEntry(occs, o, c, occurrences[c], clean[c], paths[c]);
    }
  }

  lemma SameMaps(o0: map<string, nat>, c0: map<string, bool>, p0: map<string, seq<string>>, col: string,
                 path: seq<string>, isClean: bool, o1: map<string, nat>, c1: map<string, bool>, p1: map<string,
                 seq<string>>)
    requires o0.Keys == c0.Keys == p0.Keys
    requires var n := if col in o0 then o0[col] else 0; o1 == o0[col := n][col := n + 1]
    requires var b := if col in o0 then c0 else c0[col := true]; c1 == if isClean then b else b[col := false]
    requires p1 == if col in o0 then p0 else p0[col := path]
    ensures o1 == Bumped(o0, col) && c1 == Anded(c0, col, isClean) && p1 == Kept(p0, col, path)
  {
  }

  // ---- the accumulator ---------------------------------------------------------------------------------------

  /** writeAccum: per column, how often it was met, whether always clean, and where first. */
  class WriteAccum {
    var occurrences: map<string, nat>
    var clean: map<string, bool>
    var paths: map<string, seq<string>>

    /** The maps say what the list of occurrences does. */
    ghost predicate Holds(occs: seq<Occ>)
      reads this
    {
      Agrees(occs, occurrences, clean, paths)
    }

    constructor ()
      ensures Holds([])
    {
      occurrences := map[];
      clean := map[];
      paths := map[];
    }

    method Record(col: string, path: seq<string>, isClean: bool, ghost direct: bool, ghost shown: seq<string>,
                  ghost occs: seq<Occ>)
      requires Holds(occs)
      modifies this
      ensures Holds(occs + [Occ(col, path, isClean, direct, shown)])
    {
      hide Agrees, Bumped, Anded, Kept;
      AgreesKeys(occs, occurrences, clean, paths);
      RecordAgrees(occs, occurrences, clean, paths, Occ(col, path, isClean, direct, shown));
      if col !in occurrences {
        clean := clean[col := true];
        paths := paths[col := path];
        occurrences := occurrences[col := 0];
      }
      occurrences := occurrences[col := occurrences[col] + 1];
      if !isClean {
        clean := clean[col := false];
      }
      SameMaps(old(occurrences), old(clean), old(paths), col, path, isClean, occurrences, clean, paths);
    }

    method Walk(rel: Relation, e: Expr, path: seq<string>, coalesceOnly: bool, ghost direct: bool, ghost occs: seq<Occ>)
      requires Holds(occs)
      modifies this
      ensures Holds(occs + Occs(rel, e, path, coalesceOnly, direct))
      decreases e, 1
    {
      match e
      case Bare(col) => Record(col, path, coalesceOnly, direct, [col], occs);
      case Coalesce(cols) => WalkColumns(cols, path, coalesceOnly, direct, cols, occs);
      case Object(fields) => WalkFields(rel, fields, path, direct, occs);
      case Star(except, extra) =>
        WalkOwn(rel, except, path, direct, occs);
        WalkFields(rel, extra, path, direct, occs + OwnOccs(rel, rel.columns, except, path, direct));
        assert occs + OwnOccs(rel, rel.columns, except, path, direct) + FieldOccs(rel, extra, path, direct)
            == occs + (OwnOccs(rel, rel.columns, except, path, direct) + FieldOccs(rel, extra, path, direct));
      case Opaque(_, args) => WalkArgs(rel, args, path, occs);
    }

    /** The loop over the arguments of a coalesce. */
    method WalkColumns(cols: seq<string>, path: seq<string>, coalesceOnly: bool, ghost direct: bool,
                       ghost shown: seq<string>, ghost occs: seq<Occ>)
      requires Holds(occs)
      modifies this
      ensures Holds(occs + ColumnOccs(cols, path, coalesceOnly, direct, shown))
    {
      hide Holds;
      ghost var done := occs;
      assert cols[0..] == cols;
      for i := 0 to |cols|
        invariant Holds(done)
        invariant done + ColumnOccs(cols[i..], path, coalesceOnly, direct, shown)
                  == occs + ColumnOccs(cols, path, coalesceOnly, direct, shown)
      {
        ghost var o, rest := Occ(cols[i], path, coalesceOnly, direct, shown),
            ColumnOccs(cols[i + 1..], path, coalesceOnly, direct, shown);
        assert cols[i..][0] == cols[i] && cols[i..][1..] == cols[i + 1..];
        assert done + ([o] + rest) == (done + [o]) + rest;
        Record(cols[i], path, coalesceOnly, direct, shown, done);
        done := done + [o];
      }
      assert done + [] == done;
    }

    method WalkFields(rel: Relation, fields: seq<Field>, path: seq<string>, ghost direct: bool, ghost occs: seq<Occ>)
      requires Holds(occs)
      modifies this
      ensures Holds(occs + FieldOccs(rel, fields, path, direct))
      decreases fields, 1
    {
      hide Holds;
      if fields == [] {
        assert occs + [] == occs;
        return;
      }
      ghost var first := Occs(rel, fields[0].value, path + [fields[0].key], true, direct);
      Walk(rel, fields[0].value, path + [fields[0].key], true, direct, occs);
      WalkFields(rel, fields[1..], path, direct, occs + first);
      assert occs + first + FieldOccs(rel, fields[1..], path, direct)
             == occs + (first + FieldOccs(rel, fields[1..], path, direct));
    }

    method WalkArgs(rel: Relation, args: seq<Expr>, path: seq<string>, ghost occs: seq<Occ>)
      requires Holds(occs)
      modifies this
      ensures Holds(occs + ArgOccs(rel, args, path))
      decreases args, 1
    {
      hide Holds;
      if args == [] {
        assert occs + [] == occs;
        return;
      }
      ghost var first := Occs(rel, args[0], path, false, false);
      Walk(rel, args[0], path, false, false, occs);
      WalkArgs(rel, args[1..], path, occs + first);
      assert occs + first + ArgOccs(rel, args[1..], path) == occs + (first + ArgOccs(rel, args[1..], path));
    }

    method WalkOwn(rel: Relation, except: set<string>, path: seq<string>, ghost direct: bool, ghost occs: seq<Occ>)
      requires Holds(occs)
      modifies this
      ensures Holds(occs + OwnOccs(rel, rel.columns, except, path, direct))
    {
      hide Holds;
      ghost var done := occs;
      assert rel.columns[0..] == rel.columns;
      for i := 0 to |rel.columns|
        invariant Holds(done)
        invariant done + OwnOccs(rel, rel.columns[i..], except, path, direct)
                  == occs + OwnOccs(rel, rel.columns, except, path, direct)
      {
        var c := rel.columns[i];
        assert rel.columns[i..][0] == c && rel.columns[i..][1..] == rel.columns[i + 1..];
        if c !in except && c !in rel.generated {
          ghost var o := Occ(c, path + [c], true, direct, [c]);
          assert done + ([o] + OwnOccs(rel, rel.columns[i + 1..], except, path, direct))
                 == (done + [o]) + OwnOccs(rel, rel.columns[i + 1..], except, path, direct);
          Record(c, path + [c], true, direct, [c], done);
          done := done + [o];
        } else {
          assert [] + OwnOccs(rel, rel.columns[i + 1..], except, path, direct)
                 == OwnOccs(rel, rel.columns[i + 1..], except, path, direct);
        }
      }
      assert done + [] == done;
    }
  }

  lemma {:induction false} CountJoin(a: seq<Occ>, b: seq<Occ>, c: string)
    ensures CountOf(a + b, c) == CountOf(a, c) + CountOf(b, c)
  {
    if a == [] {
      assert a + b == b;
    } else {
      assert (a + b)[1..] == a[1..] + b;
      CountJoin(a[1..], b, c);
    }
  }

  lemma CountOne(o: Occ, c: string)
    ensures CountOf([o], c) == if o.col == c then 1 else 0
  {
    assert CountOf([o][1..], c) == 0;
  }

  lemma {:induction false} SeenIff(occs: seq<Occ>, c: string)
    ensures CountOf(occs, c) > 0 <==> exists o :: o in occs && o.col == c
  {
    if occs != [] {
      SeenIff(occs[1..], c);
      if exists o :: o in occs && o.col == c {
        var o :| o in occs && o.col == c;
        assert o == occs[0] || o in occs[1..];
      }
      if CountOf(occs, c) > 0 && occs[0].col != c {
        var o :| o in occs[1..] && o.col == c;
        assert o in occs;
      } else if occs[0].col == c {
        assert occs[0] in occs;
      }
    }
  }

  /** A column the accumulator calls writable is an extractor, at the path it holds. */
  lemma AccumExtractor(occs: seq<Occ>, c: string, count: nat, clean: bool, path: seq<string>)
    requires Entry(occs, c, count, clean, path)
    ensures count == 1 && clean <==> exists o :: IsExtractor(occs, o) && o.col == c && o.path == path
  {
    if count == 1 && clean {
      var o :| o in occs && o.col == c && o.path == path;
      assert IsExtractor(occs, o);
    }
    if exists o :: IsExtractor(occs, o) && o.col == c && o.path == path {
      var o :| IsExtractor(occs, o) && o.col == c && o.path == path;
      forall x | x in occs && x.col == c ensures x.clean {
        OnlyOne(occs, o, x);
      }
    }
  }

  /** A column met once is met at one place. */
  lemma {:induction false} OnlyOne(occs: seq<Occ>, a: Occ, b: Occ)
    requires a in occs && b in occs && a.col == b.col && CountOf(occs, a.col) == 1
    ensures a == b
  {
    if a != b {
      SeenIff(occs[1..], a.col);
      if a in occs[1..] && b in occs[1..] {
        OnlyOne(occs[1..], a, b);
      }
    }
  }

  // ---- where an occurrence leads -------------------------------------------------------------------------

  /** Keys are different, and none is an own column's name. */
  ghost predicate KeysOk(rel: Relation, e: Expr)
    decreases e, 0
  {
    match e
    case Bare(_) => true
    case Coalesce(_) => true
    case Object(fields) => DistinctKeys(fields) && FieldsOk(rel, fields)
    case Star(except, extra) =>
      DistinctKeys(extra) && (forall f :: f in extra ==> !(f.key in rel.columns && f.key !in except))
      && FieldsOk(rel, extra)
    case Opaque(_, args) => true
  }

  ghost predicate FieldsOk(rel: Relation, fields: seq<Field>)
    decreases fields, 0
  {
    fields == [] || (KeysOk(rel, fields[0].value) && FieldsOk(rel, fields[1..]))
  }

  ghost predicate DistinctKeys(fields: seq<Field>) {
    forall i, j :: 0 <= i < j < |fields| ==> fields[i].key != fields[j].key
  }

  /** The first field of that key. */
  lemma {:induction false} FieldRead(rel: Relation, fields: seq<Field>, row: Row, m: Meaning, i: nat)
    requires i < |fields| && DistinctKeys(fields)
    ensures fields[i].key in ReadFields(rel, fields, row, m)
            && ReadFields(rel, fields, row, m)[fields[i].key] == Read(rel, fields[i].value, row, m)
    decreases fields
  {
    hide Read;
    if i > 0 {
      assert fields[1..][i - 1] == fields[i];
      FieldRead(rel, fields[1..], row, m, i - 1);
    }
  }

  lemma FollowField(j: Json, key: string, rest: seq<string>)
    requires j.JObject? && key in j.fields
    ensures Follow(j, [key] + rest) == Follow(j.fields[key], rest)
  {
    assert ([key] + rest)[1..] == rest;
  }

  /**
   What a select reads at the path of a column met under no opaque expression is that column, or what it is coalesced
   to.
   */
  ghost predicate Leads(rel: Relation, e: Expr, row: Row, m: Meaning, base: seq<string>, o: Occ) {
    base <= o.path && Follow(Read(rel, e, row, m), o.path[|base|..]) == Some(FirstOf(row, o.shown))
  }

  lemma FirstOfOne(row: Row, col: string)
    ensures FirstOf(row, [col]) == Cell(row, col)
  {
    assert FirstOf(row, [col][1..]) == JNull;
  }

  lemma {:induction false} ColumnOcc(cols: seq<string>, path: seq<string>, clean: bool, direct: bool,
                                     shown: seq<string>, o: Occ)
    requires o in ColumnOccs(cols, path, clean, direct, shown)
    ensures o.col in cols && o.path == path && o.direct == direct && o.shown == shown
  {
    if o !in ColumnOccs(cols[1..], path, clean, direct, shown) {
      assert o.col == cols[0];
    } else {
      ColumnOcc(cols[1..], path, clean, direct, shown, o);
    }
  }

  lemma {:induction false} DirectLeads(rel: Relation, e: Expr, base: seq<string>, clean: bool, row: Row, m: Meaning,
                                       o: Occ)
    requires KeysOk(rel, e) && o in Occs(rel, e, base, clean, true) && o.direct
    ensures Leads(rel, e, row, m, base, o)
    decreases e, 1
  {
    match e
    case Bare(_) =>
      FirstOfOne(row, o.col);
      assert o.path[|base|..] == [];
    case Coalesce(cols) =>
      ColumnOcc(cols, base, clean, true, cols, o);
      assert o.path[|base|..] == [];
    case Object(fields) =>
      var i := FieldOf(rel, fields, base, true, o);
      FieldLeads(rel, fields, base, row, m, o, i);
      FieldRead(rel, fields, row, m, i);
      FollowField(Read(rel, e, row, m), fields[i].key, o.path[|base| + 1..]);
    case Star(except, extra) =>
      if o in OwnOccs(rel, rel.columns, except, base, true) {
        OwnOcc(rel, rel.columns, except, base, true, o);
        assert o.path[|base|..] == [o.col] + [];
        OwnRead(rel, except, extra, row, m, o.col);
        FirstOfOne(row, o.col);
        FollowField(Read(rel, e, row, m), o.col, []);
      } else {
        var i := FieldOf(rel, extra, base, true, o);
        FieldLeads(rel, extra, base, row, m, o, i);
        FieldRead(rel, extra, row, m, i);
        FollowField(Read(rel, e, row, m), extra[i].key, o.path[|base| + 1..]);
      }
    case Opaque(_, args) => ArgsNotDirect(rel, args, base, o);
  }

  /** A select without an own column of that name reads the column only from the relation's. */
  lemma OwnRead(rel: Relation, except: set<string>, extra: seq<Field>, row: Row, m: Meaning, col: string)
    requires col in rel.columns && col !in except && forall f ::
               f in extra ==> !(f.key in rel.columns && f.key !in except)
    ensures var r := Read(rel, Star(except, extra), row, m);
            r.JObject? && col in r.fields && r.fields[col] == Cell(row, col)
  {
    NoField(rel, extra, row, m, col);
  }

  lemma {:induction false} NoField(rel: Relation, fields: seq<Field>, row: Row, m: Meaning, key: string)
    requires forall f :: f in fields ==> f.key != key
    ensures key !in ReadFields(rel, fields, row, m)
    decreases fields
  {
    hide Read;
    if fields != [] {
      NoField(rel, fields[1..], row, m, key);
    }
  }

  lemma {:induction false} OwnOcc(rel: Relation, columns: seq<string>, except: set<string>, base: seq<string>,
                                  direct: bool, o: Occ)
    requires o in OwnOccs(rel, columns, except, base, direct)
    ensures o.col in columns && o.col !in except && o.path == base + [o.col] && o.shown == [o.col]
  {
    if o !in OwnOccs(rel, columns[1..], except, base, direct) {
      assert o.col == columns[0];
    } else {
      OwnOcc(rel, columns[1..], except, base, direct, o);
    }
  }

  lemma {:induction false} FieldOf(rel: Relation, fields: seq<Field>, base: seq<string>, direct: bool, o: Occ)
  returns (i: nat)
    requires o in FieldOccs(rel, fields, base, direct)
    ensures i < |fields| && o in Occs(rel, fields[i].value, base + [fields[i].key], true, direct)
    decreases fields
  {
    hide Occs;
    if o in Occs(rel, fields[0].value, base + [fields[0].key], true, direct) {
      i := 0;
    } else {
      i := FieldOf(rel, fields[1..], base, direct, o);
      assert fields[1..][i] == fields[i + 1];
      i := i + 1;
    }
  }

  lemma {:induction false} FieldLeads(rel: Relation, fields: seq<Field>, base: seq<string>, row: Row, m: Meaning,
                                      o: Occ, i: nat)
    requires FieldsOk(rel, fields) && i < |fields|
             && o in Occs(rel, fields[i].value, base + [fields[i].key], true, true) && o.direct
    ensures |base| < |o.path| && base <= o.path && o.path[|base|..] == [fields[i].key] + o.path[|base| + 1..]
    ensures Follow(Read(rel, fields[i].value, row, m), o.path[|base| + 1..]) == Some(FirstOf(row, o.shown))
    decreases fields, 0
  {
    if i == 0 {
      DirectLeads(rel, fields[0].value, base + [fields[0].key], true, row, m, o);
      var p := base + [fields[0].key];
      assert o.path[..|p|] == p;
    } else {
      assert fields[1..][i - 1] == fields[i];
      FieldLeads(rel, fields[1..], base, row, m, o, i - 1);
    }
  }

  lemma {:induction false} ArgsNotDirect(rel: Relation, args: seq<Expr>, base: seq<string>, o: Occ)
    requires o in ArgOccs(rel, args, base)
    ensures !o.direct
    decreases args, 0
  {
    if o in Occs(rel, args[0], base, false, false) {
      NotDirect(rel, args[0], base, false, o);
    } else {
      ArgsNotDirect(rel, args[1..], base, o);
    }
  }

  lemma {:induction false} NotDirect(rel: Relation, e: Expr, base: seq<string>, clean: bool, o: Occ)
    requires o in Occs(rel, e, base, clean, false)
    ensures !o.direct
    decreases e, 0
  {
    match e
    case Bare(_) =>
    case Coalesce(cols) => ColumnOcc(cols, base, clean, false, cols, o);
    case Object(fields) => FieldsNotDirect(rel, fields, base, o);
    case Star(except, extra) =>
      if o in OwnOccs(rel, rel.columns, except, base, false) {
        OwnNotDirect(rel, rel.columns, except, base, o);
      } else {
        FieldsNotDirect(rel, extra, base, o);
      }
    case Opaque(_, args) => ArgsNotDirect(rel, args, base, o);
  }

  lemma {:induction false} OwnNotDirect(rel: Relation, columns: seq<string>, except: set<string>, base: seq<string>,
                                        o: Occ)
    requires o in OwnOccs(rel, columns, except, base, false)
    ensures !o.direct
  {
    if o in OwnOccs(rel, columns[1..], except, base, false) {
      OwnNotDirect(rel, columns[1..], except, base, o);
    }
  }

  lemma {:induction false} FieldsNotDirect(rel: Relation, fields: seq<Field>, base: seq<string>, o: Occ)
    requires o in FieldOccs(rel, fields, base, false)
    ensures !o.direct
    decreases fields, 0
  {
    if o in Occs(rel, fields[0].value, base + [fields[0].key], true, false) {
      NotDirect(rel, fields[0].value, base + [fields[0].key], true, o);
    } else {
      FieldsNotDirect(rel, fields[1..], base, o);
    }
  }

  // ---- writing --------------------------------------------------------------------------------------------

  /** The occurrences of a whole select. */
  function Met(rel: Relation, e: Expr): seq<Occ> {
    Occs(rel, e, [], true, true)
  }

  ghost predicate Supplies(occs: seq<Occ>, payload: Json, o: Occ, col: string) {
    IsExtractor(occs, o) && o.col == col && Follow(payload, o.path).Some?
  }

  /** The update of a row: the payload's value of every column it supplies, the row's own value of the others. */
  ghost function Update(occs: seq<Occ>, row: Row, payload: Json): (r: Row)
    ensures r.Keys == row.Keys
  {
    map c | c in row :: if exists o :: Supplies(occs, payload, o, c) then SuppliedValue(occs, payload, c) else row[c]
  }

  ghost function SuppliedValue(occs: seq<Occ>, payload: Json, col: string): Json
    requires exists o :: Supplies(occs, payload, o, col)
  {
    var o :| Supplies(occs, payload, o, col);
    Follow(payload, o.path).value
  }

  lemma SuppliedBy(occs: seq<Occ>, payload: Json, o: Occ, col: string)
    requires Supplies(occs, payload, o, col)
    ensures SuppliedValue(occs, payload, col) == Follow(payload, o.path).value
  {
    forall x | Supplies(occs, payload, x, col) ensures x == o {
      OnlyOne(occs, o, x);
    }
  }

  /** Every extractor was met under no opaque expression. */
  ghost predicate Direct(rel: Relation, e: Expr) {
    forall o :: IsExtractor(Met(rel, e), o) ==> o.direct
  }

  lemma ExtractorLeads(rel: Relation, e: Expr, row: Row, m: Meaning, o: Occ)
    requires KeysOk(rel, e) && Direct(rel, e) && IsExtractor(Met(rel, e), o)
    ensures Follow(Read(rel, e, row, m), o.path) == Some(FirstOf(row, o.shown))
  {
    hide Read, Occs, KeysOk;
    DirectLeads(rel, e, [], true, row, m, o);
    assert o.path[0..] == o.path;
  }

  /** Every column that may be written holds what is shown in its place: columns shown together hold the same value. */
  ghost predicate Level(rel: Relation, e: Expr, row: Row) {
    forall o :: IsExtractor(Met(rel, e), o) && o.col in row ==> row[o.col] == FirstOf(row, o.shown)
  }

  /** Writing back what was read changes nothing if and only if columns shown together hold the same value. */
  lemma ReadThenUpdateIff(rel: Relation, e: Expr, row: Row, m: Meaning)
    requires KeysOk(rel, e) && Direct(rel, e)
    ensures Update(Met(rel, e), row, Read(rel, e, row, m)) == row <==> Level(rel, e, row)
  {
    hide Read, KeysOk, Met, Direct, SuppliedValue, FirstOf, IsExtractor;
    var occs, payload := Met(rel, e), Read(rel, e, row, m);
    forall o | IsExtractor(occs, o) && o.col in row
      ensures Supplies(occs, payload, o, o.col) && SuppliedValue(occs, payload, o.col) == FirstOf(row, o.shown)
      ensures Update(occs, row, payload)[o.col] == FirstOf(row, o.shown)
    {
      ExtractorLeads(rel, e, row, m, o);
      SuppliedBy(occs, payload, o, o.col);
    }
    if Level(rel, e, row) {
      forall c | c in row && exists o :: Supplies(occs, payload, o, c)
        ensures SuppliedValue(occs, payload, c) == row[c]
      {
        var o :| Supplies(occs, payload, o, c);
      }
    }
  }

  /** No column that may be written is coalesced with another. */
  ghost predicate Uncoalesced(rel: Relation, e: Expr) {
    forall o :: IsExtractor(Met(rel, e), o) ==> o.shown == [o.col]
  }

  /** Writing back what was read changes nothing, whatever the row, where every column is shown on its own. */
  lemma ReadThenUpdate(rel: Relation, e: Expr, row: Row, m: Meaning)
    requires KeysOk(rel, e) && Direct(rel, e) && Uncoalesced(rel, e)
    ensures Update(Met(rel, e), row, Read(rel, e, row, m)) == row
  {
    hide Read, KeysOk, Met, Direct, IsExtractor, FirstOf;
    ReadThenUpdateIff(rel, e, row, m);
    forall o | IsExtractor(Met(rel, e), o) && o.col in row ensures row[o.col] == FirstOf(row, o.shown) {
      FirstOfOne(row, o.col);
    }
  }

  /** What an update leaves in the column of an extractor. */
  lemma UpdatedColumn(occs: seq<Occ>, row: Row, payload: Json, o: Occ)
    requires IsExtractor(occs, o) && o.col in row
    ensures var v := Follow(payload, o.path); Update(occs, row, payload)[o.col] == if v.Some? then v.value
            else row[o.col]
  {
    hide SuppliedValue;
    if Follow(payload, o.path).Some? {
      assert Supplies(occs, payload, o, o.col);
      SuppliedBy(occs, payload, o, o.col);
    } else if exists x :: Supplies(occs, payload, x, o.col) {
      var x :| Supplies(occs, payload, x, o.col);
      OnlyOne(occs, o, x);
    }
  }

  /** Reading after a write gives the payload's value wherever it supplied one and the old value elsewhere. */
  lemma UpdateThenRead(rel: Relation, e: Expr, row: Row, m: Meaning, payload: Json, o: Occ)
    requires KeysOk(rel, e) && Direct(rel, e) && IsExtractor(Met(rel, e), o) && o.shown == [o.col] && o.col in row
    ensures var v := Follow(payload, o.path);
            Follow(Read(rel, e, Update(Met(rel, e), row, payload), m), o.path)
            == Some(if v.Some? then v.value else row[o.col])
  {
    hide Read, KeysOk, Met, Direct, IsExtractor, Update;
    var next := Update(Met(rel, e), row, payload);
    ExtractorLeads(rel, e, next, m, o);
    FirstOfOne(next, o.col);
    UpdatedColumn(Met(rel, e), row, payload, o);
  }

  /**
   The columns of a coalesce that may be written are written together: the coalesce then shows the payload's value.
   */
  lemma CoalescedThenRead(rel: Relation, e: Expr, row: Row, m: Meaning, payload: Json, o: Occ)
    requires KeysOk(rel, e) && Direct(rel, e) && IsExtractor(Met(rel, e), o) && Follow(payload, o.path).Some?
             && o.shown != []
    requires forall c :: c in o.shown ==> c in row && exists x ::
                                            IsExtractor(Met(rel, e), x) && x.col == c && x.path == o.path
    ensures Follow(Read(rel, e, Update(Met(rel, e), row, payload), m), o.path) == Follow(payload, o.path)
  {
    hide Read, KeysOk, Met, Direct, IsExtractor, Update;
    var next := Update(Met(rel, e), row, payload);
    ExtractorLeads(rel, e, next, m, o);
    forall c | c in o.shown ensures Cell(next, c) == Follow(payload, o.path).value {
      var x :| IsExtractor(Met(rel, e), x) && x.col == c && x.path == o.path;
      UpdatedColumn(Met(rel, e), row, payload, x);
    }
    FirstOfSame(next, o.shown, Follow(payload, o.path).value);
  }

  lemma {:induction false} FirstOfSame(row: Row, cols: seq<string>, v: Json)
    requires cols != [] && forall c :: c in cols ==> Cell(row, c) == v
    ensures FirstOf(row, cols) == v
  {
    if |cols| > 1 && Cell(row, cols[0]) == JNull {
      FirstOfSame(row, cols[1..], v);
    } else if |cols| == 1 {
      FirstOfOne(row, cols[0]);
      assert cols == [cols[0]];
    }
  }

  /** A column that is not an extractor is never written. */
  lemma OthersUntouched(rel: Relation, e: Expr, row: Row, payload: Json, c: string)
    requires c in row && forall o :: IsExtractor(Met(rel, e), o) ==> o.col != c
    ensures Update(Met(rel, e), row, payload)[c] == row[c]
  {
    hide Met;
  }

  // ---- an object inside an opaque expression -----------------------------------------------------------------

  function Const(k: Json): Meaning {
    (_, _) => k
  }

  function Nest(path: seq<string>, leaf: Json): Json {
    if path == [] then leaf else JObject(map[path[0] := Nest(path[1..], leaf)])
  }

  lemma {:induction false} NestFollow(path: seq<string>, leaf: Json)
    ensures Follow(Nest(path, leaf), path) == Some(leaf)
  {
    if path != [] {
      NestFollow(path[1..], leaf);
    }
  }

  lemma {:induction false} FollowJoin(j: Json, p: seq<string>, q: seq<string>)
    requires Follow(j, p).Some?
    ensures Follow(j, p + q) == Follow(Follow(j, p).value, q)
    decreases |p|
  {
    if p == [] {
      assert p + q == q;
    } else {
      assert (p + q)[1..] == p[1..] + q;
      FollowJoin(ObjectGet(j, p[0]).value, p[1..], q);
    }
  }

  lemma {:induction false} PathsExtend(rel: Relation, e: Expr, base: seq<string>, clean: bool, direct: bool, o: Occ)
    requires o in Occs(rel, e, base, clean, direct)
    ensures base <= o.path
    decreases e, 0
  {
    match e
    case Bare(_) =>
    case Coalesce(cols) => ColumnOcc(cols, base, clean, direct, cols, o);
    case Object(fields) => FieldPathsExtend(rel, fields, base, direct, o);
    case Star(except, extra) =>
      if o in OwnOccs(rel, rel.columns, except, base, direct) {
        OwnOcc(rel, rel.columns, except, base, direct, o);
      } else {
        FieldPathsExtend(rel, extra, base, direct, o);
      }
    case Opaque(_, args) => ArgPathsExtend(rel, args, base, o);
  }

  lemma {:induction false} FieldPathsExtend(rel: Relation, fields: seq<Field>, base: seq<string>, direct: bool, o: Occ)
    requires o in FieldOccs(rel, fields, base, direct)
    ensures base <= o.path
    decreases fields, 0
  {
    if o in Occs(rel, fields[0].value, base + [fields[0].key], true, direct) {
      PathsExtend(rel, fields[0].value, base + [fields[0].key], true, direct, o);
      assert base <= base + [fields[0].key] <= o.path;
    } else {
      FieldPathsExtend(rel, fields[1..], base, direct, o);
    }
  }

  lemma {:induction false} ArgPathsExtend(rel: Relation, args: seq<Expr>, base: seq<string>, o: Occ)
    requires o in ArgOccs(rel, args, base)
    ensures base <= o.path
    decreases args, 0
  {
    if o in Occs(rel, args[0], base, false, false) {
      PathsExtend(rel, args[0], base, false, false, o);
    } else {
      ArgPathsExtend(rel, args[1..], base, o);
    }
  }

  /** The path of a column under an opaque expression goes through what that expression evaluates to. */
  ghost predicate Through(rel: Relation, e: Expr, base: seq<string>, o: Occ, n: nat) {
    && |base| <= n <= |o.path| && base <= o.path
    && forall row, k :: Follow(Read(rel, e, row, Const(k)), o.path[|base|..n]) == Some(k)
  }

  lemma {:induction false} OpaqueAbove(rel: Relation, e: Expr, base: seq<string>, clean: bool, o: Occ) returns (n: nat)
    requires KeysOk(rel, e) && o in Occs(rel, e, base, clean, true) && !o.direct
    ensures Through(rel, e, base, o, n)
    decreases e, 1
  {
    PathsExtend(rel, e, base, clean, true, o);
    if e.Coalesce? {
      ColumnOcc(e.cols, base, clean, true, e.cols, o);
    }
    match e
    case Object(fields) =>
      var i := FieldOf(rel, fields, base, true, o);
      n := OpaqueField(rel, fields, base, o, i);
      forall row, k ensures Follow(Read(rel, e, row, Const(k)), o.path[|base|..n]) == Some(k) {
        FieldRead(rel, fields, row, Const(k), i);
        FollowField(Read(rel, e, row, Const(k)), fields[i].key, o.path[|base| + 1..n]);
      }
    case Star(except, extra) =>
      if o in OwnOccs(rel, rel.columns, except, base, true) {
        OwnDirect(rel, rel.columns, except, base, o);
      }
      var i := FieldOf(rel, extra, base, true, o);
      n := OpaqueField(rel, extra, base, o, i);
      forall row, k ensures Follow(Read(rel, e, row, Const(k)), o.path[|base|..n]) == Some(k) {
        FieldRead(rel, extra, row, Const(k), i);
        FollowField(Read(rel, e, row, Const(k)), extra[i].key, o.path[|base| + 1..n]);
      }
    case Opaque(_, _) =>
      n := |base|;
      assert o.path[|base|..n] == [];
  }

  lemma {:induction false} OwnDirect(rel: Relation, columns: seq<string>, except: set<string>, base: seq<string>,
                                     o: Occ)
    requires o in OwnOccs(rel, columns, except, base, true)
    ensures o.direct
  {
    if o in OwnOccs(rel, columns[1..], except, base, true) {
      OwnDirect(rel, columns[1..], except, base, o);
    }
  }

  lemma {:induction false} OpaqueField(rel: Relation, fields: seq<Field>, base: seq<string>, o: Occ, i: nat)
  returns (n: nat)
    requires FieldsOk(rel, fields) && i < |fields|
             && o in Occs(rel, fields[i].value, base + [fields[i].key], true, true) && !o.direct
    ensures |base| < n <= |o.path| && base <= o.path && o.path[|base|..n] == [fields[i].key] + o.path[|base| + 1..n]
    ensures forall row, k :: Follow(Read(rel, fields[i].value, row, Const(k)), o.path[|base| + 1..n]) == Some(k)
    decreases fields, 0
  {
    if i == 0 {
      var p := base + [fields[0].key];
      n := OpaqueAbove(rel, fields[0].value, p, true, o);
      assert o.path[..|p|] == p;
    } else {
      assert fields[1..][i - 1] == fields[i];
      n := OpaqueField(rel, fields[1..], base, o, i - 1);
    }
  }

  /** The laws fail for some row and some opaque expression as soon as an extractor lies under one. */
  lemma HiddenExtractorBreaks(rel: Relation, e: Expr, o: Occ) returns (row: Row, m: Meaning)
    requires KeysOk(rel, e) && IsExtractor(Met(rel, e), o) && !o.direct
    ensures Update(Met(rel, e), row, Read(rel, e, row, m)) != row
  {
    hide Read, KeysOk, SuppliedValue, Occs;
    var n := OpaqueAbove(rel, e, [], true, o);
    var rest := o.path[n..];
    var k := Nest(rest, JLeaf(1));
    m := Const(k);
    row := map[o.col := JNull];
    var occs, payload := Met(rel, e), Read(rel, e, row, m);
    var none: seq<string> := [];
    assert Follow(Read(rel, e, row, Const(k)), o.path[|none|..n]) == Some(k);
    assert o.path == o.path[0..n] + rest;
    FollowJoin(payload, o.path[0..n], rest);
    NestFollow(rest, JLeaf(1));
    assert Supplies(occs, payload, o, o.col);
    SuppliedBy(occs, payload, o, o.col);
    assert Update(occs, row, payload)[o.col] == JLeaf(1);
  }

  /** The smallest such select: the name shown only inside an opaque expression. */
  function Greeting(): Expr {
    Object([Field("id", Bare("id")), Field("shown", Opaque(0, [Object([Field("name", Bare("name"))])]))])
  }

  function Person(): Relation {
    Relation(["id", "name"], {})
  }

  /** Its name column counts as writable, and whatever the expression shows is written over it. */
  lemma HiddenName() returns (row: Row, m: Meaning)
    ensures IsExtractor(Met(Person(), Greeting()), Occ("name", ["shown", "name"], true, false, ["name"]))
    ensures KeysOk(Person(), Greeting())
            && Update(Met(Person(), Greeting()), row, Read(Person(), Greeting(), row, m)) != row
  {
    var o := Occ("name", ["shown", "name"], true, false, ["name"]);
    GreetingMet();
    CountOne(Occ("id", ["id"], true, true, ["id"]), "name");
    CountOne(o, "name");
    CountJoin([Occ("id", ["id"], true, true, ["id"])], [o], "name");
    GreetingKeys();
    row, m := HiddenExtractorBreaks(Person(), Greeting(), o);
  }

  lemma GreetingMet()
    ensures Met(Person(), Greeting()) == [Occ("id", ["id"], true, true, ["id"])]
            + [Occ("name", ["shown", "name"], true, false, ["name"])]
  {
    var name := Field("name", Bare("name"));
    var fields := [Field("id", Bare("id")), Field("shown", Opaque(0, [Object([name])]))];
    assert [name][1..] == [] && fields[1..][1..] == [] && fields[1..][0] == fields[1];
    assert ["shown"] + ["name"] == ["shown", "name"];
    assert FieldOccs(Person(), [name][1..], ["shown"], false) == [];
    assert Occs(Person(), name.value, ["shown"] + ["name"], true, false)
           == [Occ("name", ["shown", "name"], true, false, ["name"])];
    assert FieldOccs(Person(), [name], ["shown"], false) == [Occ("name", ["shown", "name"], true, false, ["name"])];
    assert [Object([name])][1..] == [];
    assert ArgOccs(Person(), [Object([name])], ["shown"]) == [Occ("name", ["shown", "name"], true, false, ["name"])];
    assert [] + ["shown"] == ["shown"] && [] + ["id"] == ["id"];
    assert FieldOccs(Person(), fields[1..], [], true) == [Occ("name", ["shown", "name"], true, false, ["name"])];
    assert Occs(Person(), fields[0].value, [] + ["id"], true, true) == [Occ("id", ["id"], true, true, ["id"])];
  }

  lemma GreetingKeys()
    ensures KeysOk(Person(), Greeting())
  {
  }

  /** A select that coalesces two columns. */
  function CalledBy(): Expr {
    Coalesce(["nick", "name"])
  }

  /** Both count as writable, so that writing back what was read puts the one shown over the other. */
  lemma NameOverwritten(m: Meaning)
    ensures var row := map["nick" := JLeaf(1), "name" := JLeaf(2)];
            && KeysOk(Person(), CalledBy()) && Direct(Person(), CalledBy())
            && Update(Met(Person(), CalledBy()), row, Read(Person(), CalledBy(), row, m))["name"] == JLeaf(1)
  {
    var row: Row := map["nick" := JLeaf(1), "name" := JLeaf(2)];
    var cols := ["nick", "name"];
    var a, b := Occ("nick", [], true, true, cols), Occ("name", [], true, true, cols);
    assert cols[1..] == ["name"] && cols[1..][1..] == [];
    assert Met(Person(), CalledBy()) == [a] + [b];
    CountJoin([a], [b], "name");
    CountOne(a, "name");
    CountOne(b, "name");
    assert IsExtractor(Met(Person(), CalledBy()), b);
    UpdatedColumn(Met(Person(), CalledBy()), row, Read(Person(), CalledBy(), row, m), b);
  }
}
