/**
 Which columns a select makes writable, told from the select alone: those it mentions once, and there as they are
 (query/shape.go, walkSelectForWritability).
 */
module LensColumns {
  import opened Wrappers
  import opened WriteTree
  import opened Lens

  // ---- mentions ---------------------------------------------------------------------------------------------------

  /** How often a list holds a column. */
  function Times(cols: seq<string>, c: string): nat {
    multiset(cols)[c]
  }

  /**
   How often a select mentions a column; a star mentions its relation's columns but the excepted and the generated.
   */
  function Mentions(rel: Relation, e: Expr, c: string): nat
    decreases e, 0
  {
    match e
    case Bare(col) => if col == c then 1 else 0
    case Coalesce(cols) => Times(cols, c)
    case Object(fields) => FieldMentions(rel, fields, c)
    case Star(except, extra) =>
      (if c in except || c in rel.generated then 0 else Times(rel.columns, c)) + FieldMentions(rel, extra, c)
    case Opaque(_, args) => ArgMentions(rel, args, c)
  }

  function FieldMentions(rel: Relation, fields: seq<Field>, c: string): nat
    decreases fields, 0
  {
    if fields == [] then 0 else Mentions(rel, fields[0].value, c) + FieldMentions(rel, fields[1..], c)
  }

  function ArgMentions(rel: Relation, args: seq<Expr>, c: string): nat
    decreases args, 0
  {
    if args == [] then 0 else Mentions(rel, args[0], c) + ArgMentions(rel, args[1..], c)
  }

  /**
   The path leads to a column shown as it is: alone or in a coalesce, at the root or as a field, not as the argument of
   anything else. An argument may itself be an object, whose fields count.
   */
  ghost predicate PlainAt(rel: Relation, e: Expr, whole: bool, path: seq<string>, c: string)
    decreases e, 0
  {
    match e
    case Bare(col) => whole && path == [] && col == c
    case Coalesce(cols) => whole && path == [] && c in cols
    case Object(fields) => path != [] && FieldPlain(rel, fields, path, c)
    case Star(except, extra) =>
      path != [] && ((path == [c] && c in rel.columns && c !in except && c !in rel.generated)
                     || FieldPlain(rel, extra, path, c))
    case Opaque(_, args) => exists i :: 0 <= i < |args| && PlainAt(rel, args[i], false, path, c)
  }

  ghost predicate FieldPlain(rel: Relation, fields: seq<Field>, path: seq<string>, c: string)
    requires path != []
    decreases fields, 0
  {
    exists i :: 0 <= i < |fields| && fields[i].key == path[0] && PlainAt(rel, fields[i].value, true, path[1..], c)
  }

  // ---- the walk finds them ----------------------------------------------------------------------------------------

  lemma TimesFirst(cols: seq<string>, c: string)
    ensures Times(cols, c) == if cols == [] then 0 else (if cols[0] == c then 1 else 0) + Times(cols[1..], c)
  {
    if cols != [] {
      assert cols == [cols[0]] + cols[1..];
    }
  }

  lemma {:induction false} ColumnCount(cols: seq<string>, path: seq<string>, clean: bool, direct: bool,
                                       shown: seq<string>, c: string)
    ensures CountOf(ColumnOccs(cols, path, clean, direct, shown), c) == Times(cols, c)
  {
    hide Times, CountOf;
    TimesFirst(cols, c);
    if cols == [] {
      NoCount(c);
    } else {
      ColumnCount(cols[1..], path, clean, direct, shown, c);
      CountOne(Occ(cols[0], path, clean, direct, shown), c);
      CountJoin([Occ(cols[0], path, clean, direct, shown)], ColumnOccs(cols[1..], path, clean, direct, shown), c);
    }
  }

  lemma NoCount(c: string)
    ensures CountOf([], c) == 0
  {
  }

  lemma {:induction false} OwnCount(rel: Relation, columns: seq<string>, except: set<string>, path: seq<string>,
                                    direct: bool, c: string)
    ensures CountOf(OwnOccs(rel, columns, except, path, direct), c)
            == if c in except || c in rel.generated then 0 else Times(columns, c)
  {
    hide Times, CountOf;
    TimesFirst(columns, c);
    if columns == [] {
      NoCount(c);
    } else {
      var more := OwnOccs(rel, columns[1..], except, path, direct);
      var o := Occ(columns[0], path + [columns[0]], true, direct, [columns[0]]);
      OwnCount(rel, columns[1..], except, path, direct, c);
      CountOne(o, c);
      CountJoin([o], more, c);
      assert [] + more == more;
    }
  }

  /** The walk meets a column as often as the select mentions it. */
  lemma {:induction false} MetTimes(rel: Relation, e: Expr, path: seq<string>, clean: bool, direct: bool, c: string)
    ensures CountOf(Occs(rel, e, path, clean, direct), c) == Mentions(rel, e, c)
    decreases e, 1
  {
    hide CountOf, Times;
    match e
    case Bare(col) => CountOne(Occ(col, path, clean, direct, [col]), c);
    case Coalesce(cols) => ColumnCount(cols, path, clean, direct, cols, c);
    case Object(fields) => FieldTimes(rel, fields, path, direct, c);
    case Star(except, extra) =>
      OwnCount(rel, rel.columns, except, path, direct, c);
      FieldTimes(rel, extra, path, direct, c);
      CountJoin(OwnOccs(rel, rel.columns, except, path, direct), FieldOccs(rel, extra, path, direct), c);
    case Opaque(_, args) => ArgTimes(rel, args, path, c);
  }

  lemma {:induction false} FieldTimes(rel: Relation, fields: seq<Field>, path: seq<string>, direct: bool, c: string)
    ensures CountOf(FieldOccs(rel, fields, path, direct), c) == FieldMentions(rel, fields, c)
    decreases fields, 1
  {
    if fields != [] {
      hide CountOf, Occs, Mentions;
      MetTimes(rel, fields[0].value, path + [fields[0].key], true, direct, c);
      FieldTimes(rel, fields[1..], path, direct, c);
      CountJoin(Occs(rel, fields[0].value, path + [fields[0].key], true, direct),
                FieldOccs(rel, fields[1..], path, direct), c);
    }
  }

  lemma {:induction false} ArgTimes(rel: Relation, args: seq<Expr>, path: seq<string>, c: string)
    ensures CountOf(ArgOccs(rel, args, path), c) == ArgMentions(rel, args, c)
    decreases args, 1
  {
    if args != [] {
      hide CountOf, Occs, Mentions;
      MetTimes(rel, args[0], path, false, false, c);
      ArgTimes(rel, args[1..], path, c);
      CountJoin(Occs(rel, args[0], path, false, false), ArgOccs(rel, args[1..], path), c);
    }
  }

  /** An untransformed occurrence of a column at a path below another. */
  ghost predicate CleanAt(occs: seq<Occ>, base: seq<string>, path: seq<string>, c: string) {
    exists o :: o in occs && o.clean && o.col == c && o.path == base + path
  }

  lemma CleanJoin(a: seq<Occ>, b: seq<Occ>, base: seq<string>, path: seq<string>, c: string)
    ensures CleanAt(a + b, base, path, c) <==> CleanAt(a, base, path, c) || CleanAt(b, base, path, c)
  {
    if CleanAt(a, base, path, c) {
      var o :| o in a && o.clean && o.col == c && o.path == base + path;
      assert o in a + b;
    }
    if CleanAt(b, base, path, c) {
      var o :| o in b && o.clean && o.col == c && o.path == base + path;
      assert o in a + b;
    }
  }

  lemma CleanOne(o: Occ, base: seq<string>, path: seq<string>, c: string)
    requires base <= o.path
    ensures CleanAt([o], base, path, c) <==> o.clean && o.col == c && o.path[|base|..] == path
  {
    assert o.path == base + o.path[|base|..] && (base + path)[|base|..] == path;
    assert o in [o];
  }

  lemma CleanNone(base: seq<string>, path: seq<string>, c: string)
    ensures !CleanAt([], base, path, c)
  {
  }

  lemma {:induction false} ColumnPlain(cols: seq<string>, base: seq<string>, clean: bool, direct: bool,
                                       shown: seq<string>, path: seq<string>, c: string)
    ensures CleanAt(ColumnOccs(cols, base, clean, direct, shown), base, path, c) <==> clean && path == [] && c in cols
  {
    hide CleanAt;
    if cols == [] {
      CleanNone(base, path, c);
    } else {
      ColumnPlain(cols[1..], base, clean, direct, shown, path, c);
      CleanOne(Occ(cols[0], base, clean, direct, shown), base, path, c);
      CleanJoin([Occ(cols[0], base, clean, direct, shown)], ColumnOccs(cols[1..], base, clean, direct, shown), base,
                path, c);
      assert c in cols <==> c == cols[0] || c in cols[1..];
    }
  }

  lemma {:induction false} OwnPlain(rel: Relation, columns: seq<string>, except: set<string>, base: seq<string>,
                                    direct: bool, path: seq<string>, c: string)
    ensures CleanAt(OwnOccs(rel, columns, except, base, direct), base, path, c)
            <==> path == [c] && c in columns && c !in except && c !in rel.generated
  {
    hide CleanAt;
    if columns == [] {
      CleanNone(base, path, c);
    } else {
      var col := columns[0];
      var o, more := Occ(col, base + [col], true, direct, [col]), OwnOccs(rel, columns[1..], except, base, direct);
      OwnPlain(rel, columns[1..], except, base, direct, path, c);
      CleanOne(o, base, path, c);
      CleanJoin([o], more, base, path, c);
      assert [] + more == more && (base + [col])[|base|..] == [col];
      assert c in columns <==> c == col || c in columns[1..];
    }
  }

  /** The walk finds a column untransformed at a path exactly when the select shows it there as it is. */
  lemma {:induction false} PlainIff(rel: Relation, e: Expr, base: seq<string>, clean: bool, direct: bool,
                                    path: seq<string>, c: string)
    ensures CleanAt(Occs(rel, e, base, clean, direct), base, path, c) <==> PlainAt(rel, e, clean, path, c)
    decreases e, 1
  {
    hide CleanAt;
    match e
    case Bare(col) => CleanOne(Occ(col, base, clean, direct, [col]), base, path, c);
    case Coalesce(cols) => ColumnPlain(cols, base, clean, direct, cols, path, c);
    case Object(fields) => FieldsPlain(rel, fields, base, direct, path, c);
    case Star(except, extra) =>
      OwnPlain(rel, rel.columns, except, base, direct, path, c);
      FieldsPlain(rel, extra, base, direct, path, c);
      CleanJoin(OwnOccs(rel, rel.columns, except, base, direct), FieldOccs(rel, extra, base, direct), base, path, c);
    case Opaque(_, args) => ArgsPlain(rel, args, base, path, c);
  }

  lemma {:induction false} FieldsPlain(rel: Relation, fields: seq<Field>, base: seq<string>, direct: bool,
                                       path: seq<string>, c: string)
    ensures CleanAt(FieldOccs(rel, fields, base, direct), base, path, c)
            <==> path != [] && FieldPlain(rel, fields, path, c)
    decreases fields, 1
  {
    hide CleanAt, PlainAt, Occs;
    if fields == [] {
      CleanNone(base, path, c);
    } else {
      var f, deeper := fields[0], base + [fields[0].key];
      var first := Occs(rel, f.value, deeper, true, direct);
      FieldsPlain(rel, fields[1..], base, direct, path, c);
      CleanJoin(first, FieldOccs(rel, fields[1..], base, direct), base, path, c);
      FirstPlain(rel, f, base, direct, path, c);
      assert fields == [f] + fields[1..];
      if path != [] {
        if FieldPlain(rel, fields[1..], path, c) {
          var i :| 0 <= i < |fields[1..]| && fields[1..][i].key == path[0]
                   && PlainAt(rel, fields[1..][i].value, true, path[1..], c);
          assert fields[i + 1] == fields[1..][i];
        }
        if FieldPlain(rel, fields, path, c) {
          var i :| 0 <= i < |fields| && fields[i].key == path[0] && PlainAt(rel, fields[i].value, true, path[1..], c);
          assert i > 0 ==> fields[i] == fields[1..][i - 1];
        }
      }
    }
  }

  lemma {:induction false} FirstPlain(rel: Relation, f: Field, base: seq<string>, direct: bool, path: seq<string>,
                                      c: string)
    ensures CleanAt(Occs(rel, f.value, base + [f.key], true, direct), base, path, c)
            <==> path != [] && f.key == path[0] && PlainAt(rel, f.value, true, path[1..], c)
    decreases f, 1
  {
    hide PlainAt, Occs;
    var deeper := base + [f.key];
    var occs := Occs(rel, f.value, deeper, true, direct);
    if path != [] && f.key == path[0] {
      PlainIff(rel, f.value, deeper, true, direct, path[1..], c);
      assert deeper + path[1..] == base + path;
    } else if o :| o in occs && o.clean && o.col == c && o.path == base + path {
      PathThrough(rel, f, base, direct, o, path);
    }
  }

  lemma PathThrough(rel: Relation, f: Field, base: seq<string>, direct: bool, o: Occ, path: seq<string>)
    requires o in Occs(rel, f.value, base + [f.key], true, direct) && o.path == base + path
    ensures path != [] && path[0] == f.key
  {
    PathsExtend(rel, f.value, base + [f.key], true, direct, o);
    assert (base + [f.key])[|base|] == (base + path)[|base|];
  }

  lemma {:induction false} ArgsPlain(rel: Relation, args: seq<Expr>, base: seq<string>, path: seq<string>, c: string)
    ensures CleanAt(ArgOccs(rel, args, base), base, path, c)
            <==> exists i :: 0 <= i < |args| && PlainAt(rel, args[i], false, path, c)
    decreases args, 1
  {
    hide CleanAt, PlainAt, Occs;
    if args == [] {
      CleanNone(base, path, c);
    } else {
      ArgsPlain(rel, args[1..], base, path, c);
      PlainIff(rel, args[0], base, false, false, path, c);
      CleanJoin(Occs(rel, args[0], base, false, false), ArgOccs(rel, args[1..], base), base, path, c);
      assert args == [args[0]] + args[1..];
      if i :| 0 <= i < |args[1..]| && PlainAt(rel, args[1..][i], false, path, c) {
        assert args[i + 1] == args[1..][i];
      }
      if i :| 0 <= i < |args| && PlainAt(rel, args[i], false, path, c) {
        assert i > 0 ==> args[i] == args[1..][i - 1];
      }
    }
  }

  /** A column is written from a path if and only if the select mentions it once, and there as it is. */
  lemma ExtractorIff(rel: Relation, e: Expr, path: seq<string>, c: string)
    ensures (exists o :: IsExtractor(Met(rel, e), o) && o.col == c && o.path == path)
            <==> Mentions(rel, e, c) == 1 && PlainAt(rel, e, true, path, c)
  {
    hide CountOf, Mentions, PlainAt, Occs;
    MetTimes(rel, e, [], true, true, c);
    PlainIff(rel, e, [], true, true, path, c);
    assert [] + path == path;
    if Mentions(rel, e, c) == 1 && PlainAt(rel, e, true, path, c) {
      var o :| o in Met(rel, e) && o.clean && o.col == c && o.path == [] + path;
      assert IsExtractor(Met(rel, e), o);
    }
  }

  // ---- what a select shows ----------------------------------------------------------------------------------------

  /** The first field of a key. */
  ghost predicate FirstOfKey(fields: seq<Field>, i: nat, k: string) {
    i < |fields| && fields[i].key == k && forall j :: 0 <= j < i ==> fields[j].key != k
  }

  /** An object shows each of its keys, with the value of the key's first field. */
  lemma {:induction false} FieldsShown(rel: Relation, fields: seq<Field>, row: Row, m: Meaning, k: string)
    returns (i: nat)
    ensures var shown := ReadFields(rel, fields, row, m);
            && (k in shown <==> exists f :: f in fields && f.key == k)
            && (k in shown ==> FirstOfKey(fields, i, k) && shown[k] == Read(rel, fields[i].value, row, m))
  {
    hide Read;
    i := 0;
    if fields != [] {
      assert fields == [fields[0]] + fields[1..];
      if fields[0].key != k {
        i := FieldsShown(rel, fields[1..], row, m, k);
        if k in ReadFields(rel, fields[1..], row, m) {
          forall j | 0 <= j < i + 1 ensures fields[j].key != k {
            assert j > 0 ==> fields[j] == fields[1..][j - 1];
          }
          assert fields[i + 1] == fields[1..][i];
          i := i + 1;
        }
      }
    }
  }

  /** A star shows every column but the excepted, unless a field of the same key takes its place. */
  lemma StarShown(rel: Relation, except: set<string>, extra: seq<Field>, row: Row, m: Meaning, k: string)
    ensures var shown := Read(rel, Star(except, extra), row, m);
            && shown.JObject?
            && (k in shown.fields <==> (exists f :: f in extra && f.key == k) || (k in rel.columns && k !in except))
            && ((forall f :: f in extra ==> f.key != k) && k in rel.columns && k !in except ==>
                  shown.fields[k] == Cell(row, k))
            && (k in ReadFields(rel, extra, row, m) ==> shown.fields[k] == ReadFields(rel, extra, row, m)[k])
  {
    hide ReadFields;
    var _ := FieldsShown(rel, extra, row, m, k);
  }

  /** A coalesce shows its first column that is not null. */
  lemma {:induction false} FirstShown(row: Row, cols: seq<string>) returns (i: nat)
    ensures FirstOf(row, cols) == JNull ==> forall c :: c in cols ==> Cell(row, c) == JNull
    ensures FirstOf(row, cols) != JNull ==>
              && i < |cols| && FirstOf(row, cols) == Cell(row, cols[i])
              && forall j :: 0 <= j < i ==> Cell(row, cols[j]) == JNull
  {
    i := 0;
    if cols != [] && Cell(row, cols[0]) == JNull {
      i := FirstShown(row, cols[1..]);
      if FirstOf(row, cols) != JNull {
        forall j | 0 <= j < i + 1 ensures Cell(row, cols[j]) == JNull {
          assert j > 0 ==> cols[j] == cols[1..][j - 1];
        }
        i := i + 1;
      }
    }
  }
}
