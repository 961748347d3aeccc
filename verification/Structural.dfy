/** Structural query decoding, querystring/structural.go: dotted keys into nested objects, repeated keys into lists. */
module Structural {
  import opened Wrappers

  datatype Tree = Str(s: string) | List(items: seq<string>) | Obj(fields: map<string, Tree>)

  type Path = seq<string>

  datatype Pair = Pair(path: Path, value: string)

  // ---- keys ------------------------------------------------------------------------------------------

  /** strings.Split(key, "."): always at least one segment. */
  function Split(key: string): (path: Path)
    ensures path != []
  {
    if key == "" then [""]
    else
      var rest := Split(key[1..]);
      if key[0] == '.' then [""] + rest else [[key[0]] + rest[0]] + rest[1..]
  }

  function Join(path: Path): string
    requires path != []
  {
    if |path| == 1 then path[0] else path[0] + "." + Join(path[1..])
  }

  /** Splitting loses nothing: the segments joined by dots are the key. */
  lemma {:induction false} SplitJoin(key: string)
    ensures Join(Split(key)) == key
  {
    if key != "" {
      SplitJoin(key[1..]);
      var rest := Split(key[1..]);
      if key[0] == '.' {
        assert Split(key)[1..] == rest;
        assert "" + "." + Join(rest) == key;
      } else {
        assert Split(key)[1..] == rest[1..];
        if |rest| > 1 {
          assert [key[0]] + rest[0] + "." + Join(rest[1..]) == [key[0]] + (rest[0] + "." + Join(rest[1..]));
        }
      }
    }
  }

  /** And no segment holds a dot. */
  lemma {:induction false} SplitNoDots(key: string, i: nat)
    requires i < |Split(key)|
    ensures '.' !in Split(key)[i]
  {
    if key != "" {
      var rest := Split(key[1..]);
      if key[0] == '.' {
        if i > 0 {
          SplitNoDots(key[1..], i - 1);
          assert Split(key)[i] == rest[i - 1];
        }
      } else {
        SplitNoDots(key[1..], i);
        assert Split(key)[i] == if i == 0 then [key[0]] + rest[0] else rest[i];
      }
    }
  }

  // ---- setting a path -----------------------------------------------------------------------------------

  /** setPath: the object with the value added at the path, unless the path is used both ways. */
  function SetPath(node: map<string, Tree>, path: Path, value: string): Option<map<string, Tree>>
    requires path != []
    decreases |path|
  {
    var key := path[0];
    if |path| == 1 then
      if key !in node then Some(node[key := Str(value)])
      else
        match node[key]
        case Str(e) => Some(node[key := List([e, value])])
        case List(es) => Some(node[key := List(es + [value])])
        case Obj(_) => None
    else if key in node && !node[key].Obj? then None
    else
      var child := SetPath(if key in node then node[key].fields else map[], path[1..], value);
      if child.None? then None else Some(node[key := Obj(child.value)])
  }

  /** What an object holds at a path. */
  function At(node: map<string, Tree>, path: Path): Option<Tree>
    requires path != []
    decreases |path|
  {
    if path[0] !in node then None
    else if |path| == 1 then Some(node[path[0]])
    else if node[path[0]].Obj? then At(node[path[0]].fields, path[1..])
    else None
  }

  function Added(before: Option<Tree>, value: string): Tree
    requires before.Some? ==> !before.value.Obj?
  {
    match before
    case None => Str(value)
    case Some(Str(e)) => List([e, value])
    case Some(List(es)) => List(es + [value])
  }

  /** The path can be set: nothing but objects above it, no object at it. */
  ghost predicate Free(node: map<string, Tree>, path: Path)
    requires path != []
  {
    && (At(node, path).Some? ==> !At(node, path).value.Obj?)
    && forall n :: 0 < n < |path| ==> At(node, path[..n]).None? || At(node, path[..n]).value.Obj?
  }

  lemma {:induction false} SetPathIff(node: map<string, Tree>, path: Path, value: string)
    requires path != []
    ensures SetPath(node, path, value).Some? <==> Free(node, path)
    decreases |path|
  {
    if |path| > 1 {
      var key, rest := path[0], path[1..];
      assert path[..1][0] == key;
      if key !in node || node[key].Obj? {
        var child := if key in node then node[key].fields else map[];
        SetPathIff(child, rest, value);
        forall n | 0 < n < |rest| ensures At(child, rest[..n]) == At(node, path[..n + 1]) {
          assert path[..n + 1][1..] == rest[..n] && path[..n + 1][0] == key;
          if key !in node {
            Nothing(rest[..n]);
          }
        }
        if key !in node {
          Nothing(rest);
        }
        FreeDown(node, path, child);
      } else {
        assert At(node, path[..1]) == Some(node[key]);
      }
    }
  }

  lemma Nothing(path: Path)
    requires path != []
    ensures At(map[], path).None?
  {
  }

  lemma FreeDown(node: map<string, Tree>, path: Path, child: map<string, Tree>)
    requires |path| > 1 && (path[0] in node ==> node[path[0]] == Obj(child)) && At(node, path) == At(child, path[1..])
    requires forall n :: 0 < n < |path[1..]| ==> At(child, path[1..][..n]) == At(node, path[..n + 1])
    ensures Free(node, path) <==> Free(child, path[1..])
  {
    assert path[..1][0] == path[0];
    if Free(child, path[1..]) {
      forall n | 0 < n < |path| ensures At(node, path[..n]).None? || At(node, path[..n]).value.Obj? {
        if n > 1 {
          assert At(child, path[1..][..n - 1]) == At(node, path[..n - 1 + 1]);
        }
      }
    }
    if Free(node, path) {
      forall n | 0 < n < |path[1..]| ensures At(child, path[1..][..n]).None? || At(child, path[1..][..n]).value.Obj? {
        assert At(node, path[..n + 1]).None? || At(node, path[..n + 1]).value.Obj?;
      }
    }
  }

  /** Setting a path adds the value there, makes objects above it, and leaves every other path alone. */
  lemma {:induction false} SetPathAt(node: map<string, Tree>, path: Path, value: string, p: Path)
    requires path != [] && p != [] && SetPath(node, path, value).Some?
    ensures At(node, path).Some? ==> !At(node, path).value.Obj?
    ensures var after := SetPath(node, path, value).value;
            if p == path then At(after, p) == Some(Added(At(node, path), value))
            else if p < path then At(after, p).Some? && At(after, p).value.Obj?
            else At(after, p) == At(node, p)
    decreases |path|
  {
    if |path| > 1 {
      var key, rest := path[0], path[1..];
      var child := if key in node then node[key].fields else map[];
      if |p| > 1 && p[0] == key {
        SetPathAt(child, rest, value, p[1..]);
        assert p == [key] + p[1..] && path == [key] + rest;
        assert p[1..] < rest <==> p < path;
        assert p[1..] == rest <==> p == path;
        if key !in node {
          Nothing(p[1..]);
          Nothing(rest);
        }
      } else {
        SetPathAt(child, rest, value, rest);
        if key !in node {
          Nothing(rest);
        }
        if |p| == 1 {
          assert p == [p[0]] && path[..1] == [key];
          assert p < path <==> p[0] == key;
        }
      }
    } else {
      assert path == [path[0]];
      if p[0] == path[0] && |p| == 1 {
        assert p == path;
      }
    }
  }

  // ---- all pairs --------------------------------------------------------------------------------------------

  function Decode(pairs: seq<Pair>): Option<map<string, Tree>>
    requires forall i :: 0 <= i < |pairs| ==> pairs[i].path != []
  {
    if pairs == [] then Some(map[])
    else
      var before := Decode(pairs[..|pairs| - 1]);
      var last := pairs[|pairs| - 1];
      if before.None? || "" in last.path then None else SetPath(before.value, last.path, last.value)
  }

  /** The values given for a path, in order. */
  function ValuesAt(pairs: seq<Pair>, p: Path): seq<string> {
    if pairs == [] then []
    else ValuesAt(pairs[..|pairs| - 1], p) + (if pairs[|pairs| - 1].path == p then [pairs[|pairs| - 1].value] else [])
  }

  /** No empty segment, and no key's path leads through another's. */
  ghost predicate Clean(pairs: seq<Pair>) {
    && (forall i :: 0 <= i < |pairs| ==> "" !in pairs[i].path)
    && (forall i, j :: 0 <= i < |pairs| && 0 <= j < |pairs| ==> !(pairs[i].path < pairs[j].path))
  }

  ghost predicate Below(pairs: seq<Pair>, p: Path) {
    exists i :: 0 <= i < |pairs| && p < pairs[i].path
  }

  /** The object holds exactly the pairs' values at a path: one as a string, several as a list in order. */
  ghost predicate Shows(node: map<string, Tree>, pairs: seq<Pair>, p: Path)
    requires p != []
  {
    var vs := ValuesAt(pairs, p);
    match At(node, p)
    case None => vs == [] && !Below(pairs, p)
    case Some(Str(s)) => vs == [s] && !Below(pairs, p)
    case Some(List(items)) => vs == items && |items| >= 2 && !Below(pairs, p)
    case Some(Obj(_)) => vs == [] && Below(pairs, p)
  }

  lemma {:induction false} ValuesIff(pairs: seq<Pair>, p: Path)
    ensures ValuesAt(pairs, p) != [] <==> exists i :: 0 <= i < |pairs| && pairs[i].path == p
  {
    if pairs != [] {
      var init := pairs[..|pairs| - 1];
      ValuesIff(init, p);
      if exists i :: 0 <= i < |pairs| && pairs[i].path == p {
        var i :| 0 <= i < |pairs| && pairs[i].path == p;
        assert i < |init| ==> init[i] == pairs[i];
      }
      if exists i :: 0 <= i < |init| && init[i].path == p {
        var i :| 0 <= i < |init| && init[i].path == p;
        assert pairs[i] == init[i];
      }
    }
  }

  /** The next pair can be added exactly when its path crosses no other. */
  lemma FreeIff(node: map<string, Tree>, pairs: seq<Pair>, path: Path)
    requires path != [] && forall p :: p != [] ==> Shows(node, pairs, p)
    requires forall i :: 0 <= i < |pairs| ==> pairs[i].path != []
    ensures Free(node, path) <==> forall i :: 0 <= i < |pairs| ==> !(path < pairs[i].path) && !(pairs[i].path < path)
  {
    hide At, ValuesAt;
    assert Shows(node, pairs, path);
    ValuesIff(pairs, path);
    if Free(node, path) {
      forall i | 0 <= i < |pairs| && pairs[i].path < path ensures false {
        var n := |pairs[i].path|;
        assert path[..n] == pairs[i].path;
        assert Shows(node, pairs, path[..n]);
        ValuesIff(pairs, path[..n]);
      }
    } else if At(node, path).None? || !At(node, path).value.Obj? {
      var n :| 0 < n < |path| && !(At(node, path[..n]).None? || At(node, path[..n]).value.Obj?);
      assert Shows(node, pairs, path[..n]);
      ValuesIff(pairs, path[..n]);
      var i :| 0 <= i < |pairs| && pairs[i].path == path[..n];
      assert pairs[i].path < path;
    }
  }

  lemma BelowLast(pairs: seq<Pair>, p: Path)
    requires pairs != []
    ensures Below(pairs, p) <==> Below(pairs[..|pairs| - 1], p) || p < pairs[|pairs| - 1].path
  {
    var init := pairs[..|pairs| - 1];
    if Below(init, p) {
      var i :| 0 <= i < |init| && p < init[i].path;
      assert pairs[i] == init[i];
    }
    if Below(pairs, p) {
      var i :| 0 <= i < |pairs| && p < pairs[i].path;
      assert i < |init| ==> init[i] == pairs[i];
    }
  }

  lemma CleanLast(pairs: seq<Pair>)
    requires pairs != []
    ensures var init, last := pairs[..|pairs| - 1], pairs[|pairs| - 1];
            Clean(pairs) <==> Clean(init) && "" !in last.path && forall i ::
                                0 <= i < |init| ==> !(last.path < init[i].path) && !(init[i].path < last.path)
  {
    var init, last := pairs[..|pairs| - 1], pairs[|pairs| - 1];
    assert forall i :: 0 <= i < |init| ==> init[i] == pairs[i];
    if Clean(init) && "" !in last.path && forall i :: 0 <= i < |init| ==>
                                                        !(last.path < init[i].path) && !(init[i].path < last.path) {
      forall i, j | 0 <= i < |pairs| && 0 <= j < |pairs| ensures !(pairs[i].path < pairs[j].path) {
        if i < |init| && j < |init| {
          assert !(init[i].path < init[j].path);
        }
      }
    }
  }

  /** Decoding succeeds exactly on clean keys, in whatever order, and then every path holds its values in order. */
  lemma {:induction false} DecodeIff(pairs: seq<Pair>)
    requires forall i :: 0 <= i < |pairs| ==> pairs[i].path != []
    ensures Decode(pairs).Some? <==> Clean(pairs)
    ensures Decode(pairs).Some? ==> forall p :: p != [] ==> Shows(Decode(pairs).value, pairs, p)
    decreases |pairs|
  {
    if pairs == [] {
      forall p: Path | p != [] ensures Shows(map[], pairs, p) {
        Nothing(p);
      }
    } else {
      var init, last := pairs[..|pairs| - 1], pairs[|pairs| - 1];
      DecodeIff(init);
      CleanLast(pairs);
      if Decode(init).Some? && "" !in last.path {
        var node := Decode(init).value;
        FreeIff(node, init, last.path);
        SetPathIff(node, last.path, last.value);
        if Decode(pairs).Some? {
          forall p: Path | p != [] ensures Shows(Decode(pairs).value, pairs, p) {
            ShowsNext(node, pairs, p);
          }
        }
      }
    }
  }

  lemma ShowsNext(node: map<string, Tree>, pairs: seq<Pair>, p: Path)
    requires pairs != [] && p != [] && pairs[|pairs| - 1].path != [] && Shows(node, pairs[..|pairs| - 1], p)
    requires SetPath(node, pairs[|pairs| - 1].path, pairs[|pairs| - 1].value).Some?
    requires forall i :: 0 <= i < |pairs| - 1 ==>
                           !(pairs[|pairs| - 1].path < pairs[i].path) && !(pairs[i].path < pairs[|pairs| - 1].path)
    ensures Shows(SetPath(node, pairs[|pairs| - 1].path, pairs[|pairs| - 1].value).value, pairs, p)
  {
    hide At, SetPath, Below;
    var last := pairs[|pairs| - 1];
    SetPathAt(node, last.path, last.value, p);
    BelowLast(pairs, p);
    if p < last.path {
      ValuesIff(pairs[..|pairs| - 1], p);
      NotAbove(pairs, p);
    } else if p == last.path {
      NotBelow(pairs);
    }
  }

  lemma NotBelow(pairs: seq<Pair>)
    requires pairs != [] && forall i :: 0 <= i < |pairs| - 1 ==> !(pairs[|pairs| - 1].path < pairs[i].path)
    ensures !Below(pairs[..|pairs| - 1], pairs[|pairs| - 1].path)
  {
  }

  lemma NotAbove(pairs: seq<Pair>, p: Path)
    requires pairs != [] && p < pairs[|pairs| - 1].path
    requires forall i :: 0 <= i < |pairs| - 1 ==> !(pairs[i].path < pairs[|pairs| - 1].path)
    ensures ValuesAt(pairs[..|pairs| - 1], p) == []
  {
    ValuesIff(pairs[..|pairs| - 1], p);
  }

  /** DecodeStructural: pair by pair, into one object. */
  method DecodeStructural(keys: seq<string>, values: seq<string>) returns (ok: bool, root: map<string, Tree>)
    requires |keys| == |values|
    ensures var pairs := seq(|keys|, i requires 0 <= i < |keys| => Pair(Split(keys[i]), values[i]));
            ok == Clean(pairs) && (ok ==> forall p :: p != [] ==> Shows(root, pairs, p))
  {
    hide Clean, Shows, SetPath;
    ghost var pairs := seq(|keys|, i requires 0 <= i < |keys| => Pair(Split(keys[i]), values[i]));
    root := map[];
    for i := 0 to |keys|
      invariant Decode(pairs[..i]) == Some(root)
    {
      var path := Split(keys[i]);
      assert pairs[..i + 1][..i] == pairs[..i];
      var free := SetPath(root, path, values[i]);
      if "" in path || free.None? {
        NotClean(pairs, i + 1);
        return false, root;
      }
      root := free.value;
    }
    assert pairs[..|keys|] == pairs;
    DecodeIff(pairs);
    ok := true;
  }

  lemma NotClean(pairs: seq<Pair>, n: nat)
    requires n <= |pairs| && (forall i :: 0 <= i < |pairs| ==> pairs[i].path != []) && Decode(pairs[..n]).None?
    ensures !Clean(pairs)
  {
    DecodeIff(pairs[..n]);
    if Clean(pairs) {
      forall i, j | 0 <= i < n && 0 <= j < n ensures !(pairs[..n][i].path < pairs[..n][j].path) {
        assert !(pairs[i].path < pairs[j].path);
      }
      assert Clean(pairs[..n]);
    }
  }
}
