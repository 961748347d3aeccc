/**
 The JSON text of an arena node (writeJSON of query/node_cbor.go): the walk ends, since every kid is before its
 node, and writes what the item the node stands for is in JSON, or refuses what has no JSON form.
 */
module CborJson {
  import opened Wrappers
  import opened Bytes
  import opened CborItem
  import opened CborArena
  import opened NumericCbor

  /** The spelling of strings and floats. */
  datatype Forms = Forms(quote: seq<byte> -> Option<seq<byte>>, float: (nat, nat) -> Option<seq<byte>>)

  const NULL_TEXT: seq<byte> := [0x6e, 0x75, 0x6c, 0x6c]
  const TRUE_TEXT: seq<byte> := [0x74, 0x72, 0x75, 0x65]
  const FALSE_TEXT: seq<byte> := [0x66, 0x61, 0x6c, 0x73, 0x65]

  // ---- the order of keys -----------------------------------------------------------------------------------

  predicate Before(a: seq<byte>, b: seq<byte>) {
    b != [] && (a == [] || a[0] < b[0] || (a[0] == b[0] && Before(a[1..], b[1..])))
  }

  /** An index goes before those whose keys its own key is before. */
  function Insert(keys: seq<seq<byte>>, i: nat, order: seq<nat>): (r: seq<nat>)
    requires i < |keys| && forall j :: 0 <= j < |order| ==> order[j] < |keys|
    ensures |r| == |order| + 1 && forall j :: 0 <= j < |r| ==> r[j] < |keys|
  {
    if order == [] then [i]
    else
      var last := order[|order| - 1];
      if Before(keys[i], keys[last]) then Insert(keys, i, order[..|order| - 1]) + [last] else order + [i]
  }

  /** The indexes of the first keys, sorted by key. */
  function Order(keys: seq<seq<byte>>, count: nat): (r: seq<nat>)
    requires count <= |keys|
    ensures |r| == count && forall j :: 0 <= j < |r| ==> r[j] < |keys|
  {
    if count == 0 then [] else Insert(keys, count - 1, Order(keys, count - 1))
  }

  lemma {:induction false} BeforeAsymmetric(a: seq<byte>, b: seq<byte>)
    requires Before(a, b)
    ensures !Before(b, a)
  {
    if a != [] && a[0] == b[0] {
      BeforeAsymmetric(a[1..], b[1..]);
    }
  }

  ghost predicate Ascending(keys: seq<seq<byte>>, order: seq<nat>) {
    && (forall j :: 0 <= j < |order| ==> order[j] < |keys|)
    && forall j :: 0 < j < |order| ==> !Before(keys[order[j]], keys[order[j - 1]])
  }

  lemma LongerAscending(keys: seq<seq<byte>>, order: seq<nat>, i: nat)
    requires Ascending(keys, order) && i < |keys| && (order != [] ==> !Before(keys[i], keys[order[|order| - 1]]))
    ensures Ascending(keys, order + [i])
  {
    hide Before;
  }

  lemma ShorterAscending(keys: seq<seq<byte>>, order: seq<nat>)
    requires Ascending(keys, order) && order != []
    ensures Ascending(keys, order[..|order| - 1])
    ensures |order| > 1 ==> !Before(keys[order[|order| - 1]], keys[order[|order| - 2]])
  {
    hide Before;
  }

  lemma {:induction false} Inserted(keys: seq<seq<byte>>, i: nat, order: seq<nat>)
    requires i < |keys| && Ascending(keys, order)
    ensures var r := Insert(keys, i, order);
            Ascending(keys, r) && (r[|r| - 1] == i || (order != [] && r[|r| - 1] == order[|order| - 1]))
    ensures multiset(Insert(keys, i, order)) == multiset(order) + multiset{i}
  {
    hide Before, Ascending;
    if order == [] {
      OneAscending(keys, i);
    } else {
      var init, last := order[..|order| - 1], order[|order| - 1];
      assert order == init + [last];
      LastIndex(keys, order);
      if Before(keys[i], keys[last]) {
        BeforeAsymmetric(keys[i], keys[last]);
        ShorterAscending(keys, order);
        Inserted(keys, i, init);
        LongerAscending(keys, Insert(keys, i, init), last);
      } else {
        LongerAscending(keys, order, i);
      }
    }
  }

  lemma OneAscending(keys: seq<seq<byte>>, i: nat)
    requires i < |keys|
    ensures Ascending(keys, [i])
  {
  }

  lemma LastIndex(keys: seq<seq<byte>>, order: seq<nat>)
    requires Ascending(keys, order)
    ensures forall j :: 0 <= j < |order| ==> order[j] < |keys|
  {
  }

  /** The order sorts every key and leaves none out. */
  lemma {:induction false} OrderSorts(keys: seq<seq<byte>>, count: nat)
    requires count <= |keys|
    ensures Ascending(keys, Order(keys, count)) && Once(Order(keys, count), count)
  {
    hide Before, Insert, Ascending, Once;
    if count == 0 {
      NoneAscending(keys);
    } else {
      OrderSorts(keys, count - 1);
      Inserted(keys, count - 1, Order(keys, count - 1));
      OnceMore(Order(keys, count - 1), Order(keys, count), count - 1);
    }
  }

  /** Each index below the count once, and no other. */
  ghost predicate Once(order: seq<nat>, count: nat) {
    forall i: nat :: multiset(order)[i] == if i < count then 1 else 0
  }

  lemma OnceMore(a: seq<nat>, b: seq<nat>, n: nat)
    requires Once(a, n) && multiset(b) == multiset(a) + multiset{n}
    ensures Once(b, n + 1)
  {
  }

  lemma NoneAscending(keys: seq<seq<byte>>)
    ensures Ascending(keys, []) && Once([], 0)
  {
  }

  // ---- the text of an item -------------------------------------------------------------------------------------

  function Then(a: Option<seq<byte>>, b: Option<seq<byte>>): Option<seq<byte>> {
    if a.None? || b.None? then None else Some(a.value + b.value)
  }

  function Comma(n: nat): seq<byte> {
    if n > 0 then [0x2c] else []
  }

  function Between(open: byte, inner: Option<seq<byte>>, close: byte): Option<seq<byte>> {
    if inner.None? then None else Some([open] + inner.value + [close])
  }

  function JsonOf(x: Item, f: Forms): Option<seq<byte>>
    decreases x, 0
  {
    match x
    case Null => Some(NULL_TEXT)
    case Bool(b) => Some(if b then TRUE_TEXT else FALSE_TEXT)
    case Text(s) => f.quote(s)
    case Float(width, bits) => f.float(width, bits)
    case Int(n) => Some(IntText(n))
    case Big(n) => Some(IntText(n))
    case Dec(mant, exp) => Some(DecimalText(mant, exp))
    case Arr(items) => Between(0x5b, ItemsOf(items, f), 0x5d)
    case Map(pairs) => Between(0x7b, PairsOf(pairs, Order(Keys(pairs), |pairs|), f), 0x7d)
    case _ => None
  }

  function ItemsOf(items: seq<Item>, f: Forms): Option<seq<byte>>
    decreases items, 0
  {
    if items == [] then Some([])
    else Then(ItemsOf(items[..|items| - 1], f), Then(Some(Comma(|items| - 1)), JsonOf(items[|items| - 1], f)))
  }

  /** The pairs in some order. */
  function PairsOf(pairs: seq<(seq<byte>, Item)>, order: seq<nat>, f: Forms): Option<seq<byte>>
    requires forall j :: 0 <= j < |order| ==> order[j] < |pairs|
    decreases pairs, 1, |order|
  {
    if order == [] then Some([])
    else Then(PairsOf(pairs, order[..|order| - 1], f), PairOf(pairs, order[|order| - 1], |order| - 1, f))
  }

  function PairOf(pairs: seq<(seq<byte>, Item)>, i: nat, n: nat, f: Forms): Option<seq<byte>>
    requires i < |pairs|
    decreases pairs, 0, 0
  {
    var p := pairs[i];
    assert (pairs decreases to p);
    assert (p decreases to p.1);
    Then(Some(Comma(n)), Then(f.quote(p.0), Then(Some([0x3a]), JsonOf(p.1, f))))
  }

  lemma {:induction false} ItemsStuck(items: seq<Item>, n: nat, f: Forms)
    requires n <= |items|
    ensures ItemsOf(items[..n], f).None? ==> ItemsOf(items, f).None?
    decreases |items| - n
  {
    if n == |items| {
      assert items[..n] == items;
    } else {
      assert items[..n + 1][..n] == items[..n];
      ItemsStuck(items, n + 1, f);
    }
  }

  lemma {:induction false} PairsStuck(pairs: seq<(seq<byte>, Item)>, order: seq<nat>, n: nat, f: Forms)
    requires n <= |order| && forall j :: 0 <= j < |order| ==> order[j] < |pairs|
    ensures PairsOf(pairs, order[..n], f).None? ==> PairsOf(pairs, order, f).None?
    decreases |order| - n
  {
    hide PairOf;
    if n == |order| {
      assert order[..n] == order;
    } else {
      assert order[..n + 1][..n] == order[..n];
      PairsStuck(pairs, order, n + 1, f);
    }
  }

  // ---- the walk of the arena ---------------------------------------------------------------------------------

  /** writeJSON: appends the JSON text of the item a node stands for, or fails when it has none. */
  method WriteJson(ar: Arena, i: nat, b: seq<byte>, f: Forms) returns (ok: bool, out: seq<byte>)
    requires WF(ar) && i < |ar.nodes|
    ensures var j := JsonOf(View(ar, i), f); ok == j.Some? && (ok ==> out == b + j.value)
    decreases i, 1
  {
    hide View, IntText, Order, NodeOk, ItemsOf, PairsOf;
    var n := ar.nodes[i];
    KindView(ar, i);
    MoreKinds(ar, i);
    match n.kind
    case ItNull => return true, b + NULL_TEXT;
    case ItTrue => return true, b + TRUE_TEXT;
    case ItFalse => return true, b + FALSE_TEXT;
    case ItText =>
      var text := f.quote(Str(ar, n));
      if text.None? { return false, b; }
      return true, b + text.value;
    case ItFloat =>
      var text := f.float(n.b, n.extra);
      if text.None? { return false, b; }
      return true, b + text.value;
    case ItInt =>
      IntegerTextView(ar, i);
      return true, b + IntegerText(ar, n);
    case ItUint =>
      IntegerTextView(ar, i);
      return true, b + IntegerText(ar, n);
    case ItNegBig =>
      IntegerTextView(ar, i);
      return true, b + IntegerText(ar, n);
    case ItNumText =>
      IntegerTextView(ar, i);
      NumberTextView(ar, i);
      return true, b + (if n.b == 0 then ar.strs[n.a] else ar.strs[n.a] + [EXP_MARK] + IntText(ToInt64(n.extra)));
    case ItArray => ok, out := WriteArray(ar, i, b, f);
    case ItMap => ok, out := WriteMap(ar, i, b, f);
    case _ => return false, b;
  }

  lemma MoreKinds(ar: Arena, i: nat)
    requires WF(ar) && i < |ar.nodes|
    ensures var n, x := ar.nodes[i], View(ar, i);
            && (n.kind.ItNull? ==> x.Null?) && (n.kind.ItTrue? ==> x == Bool(true))
            && (n.kind.ItFalse? ==> x == Bool(false))
            && (n.kind.ItMap? ==> x.Map?) && (n.kind.ItNumText? ==> n.a < |ar.strs|)
            && (n.kind.ItUuid? ==> x.Uuid?) && (n.kind.ItInstant? ==> IsInstant(x)) && (n.kind.ItDate? ==> x.Date?)
            && (n.kind.ItBadTag? ==> x.BadTag?)
  {
    assert NodeOk(ar, ar.nodes[i], i);
  }

  lemma NumberTextView(ar: Arena, i: nat)
    requires WF(ar) && i < |ar.nodes| && ar.nodes[i].kind.ItNumText?
    ensures var n, x := ar.nodes[i], View(ar, i);
            n.a < |ar.strs| && (n.b != 0 ==> x.Dec? && DecimalText(x.mant, x.exp)
                                             == ar.strs[n.a] + [EXP_MARK] + IntText(ToInt64(n.extra)))
  {
    hide IntText, IntVal;
    assert NodeOk(ar, ar.nodes[i], i);
  }

  method WriteArray(ar: Arena, i: nat, b: seq<byte>, f: Forms) returns (ok: bool, out: seq<byte>)
    requires WF(ar) && i < |ar.nodes| && ar.nodes[i].kind.ItArray?
    ensures var j := JsonOf(View(ar, i), f); ok == j.Some? && (ok ==> out == b + j.value)
    decreases i, 0
  {
    hide View, NodeOk;
    var n := ar.nodes[i];
    KindView(ar, i);
    ghost var items := View(ar, i).items;
    out := b + [0x5b];
    for j := 0 to n.b
      invariant ItemsOf(items[..j], f).Some? && out == b + ([0x5b] + ItemsOf(items[..j], f).value)
    {
      assert items[..j + 1][..j] == items[..j];
      ItemsStuck(items, j + 1, f);
      KidBelow(ar, i, j);
      ItemAt(ar, i, j);
      var good;
      good, out := WriteJson(ar, ar.kids[n.a + j], out + Comma(j), f);
      if !good { return false, out; }
      Regroup(b, [0x5b], ItemsOf(items[..j], f).value, Comma(j), JsonOf(items[j], f).value);
    }
    assert items[..n.b] == items;
    ok, out := true, out + [0x5d];
    Close(b, 0x5b, ItemsOf(items, f).value, 0x5d);
  }

  lemma Regroup(b: seq<byte>, open: seq<byte>, inner: seq<byte>, comma: seq<byte>, x: seq<byte>)
    ensures b + (open + inner) + comma + x == b + (open + (inner + (comma + x)))
  {
  }

  lemma Close(b: seq<byte>, open: byte, inner: seq<byte>, close: byte)
    ensures b + ([open] + inner) + [close] == b + ([open] + inner + [close])
  {
  }

  lemma ItemAt(ar: Arena, i: nat, j: nat)
    requires WF(ar) && i < |ar.nodes| && ar.nodes[i].kind.ItArray? && j < ar.nodes[i].b
    ensures ar.nodes[i].a + j < |ar.kids| && ar.kids[ar.nodes[i].a + j] < |ar.nodes|
    ensures View(ar, i).Arr? && |View(ar, i).items| == ar.nodes[i].b
            && View(ar, i).items[j] == View(ar, ar.kids[ar.nodes[i].a + j])
  {
    assert NodeOk(ar, ar.nodes[i], i);
    assert ar.kids[Slot(ar.nodes[i], j)] < i;
  }

  lemma KidBelow(ar: Arena, i: nat, j: nat)
    requires WF(ar) && i < |ar.nodes| && j < Slots(ar.nodes[i])
    ensures ar.nodes[i].a + j < |ar.kids| && ar.kids[ar.nodes[i].a + j] < i
  {
    assert NodeOk(ar, ar.nodes[i], i);
    assert ar.kids[Slot(ar.nodes[i], j)] < i;
  }

  method WriteMap(ar: Arena, i: nat, b: seq<byte>, f: Forms) returns (ok: bool, out: seq<byte>)
    requires WF(ar) && i < |ar.nodes| && ar.nodes[i].kind.ItMap?
    ensures var j := JsonOf(View(ar, i), f); ok == j.Some? && (ok ==> out == b + j.value)
    decreases i, 0
  {
    hide View, NodeOk, Order, PairOf;
    var n := ar.nodes[i];
    MapCount(ar, i);
    ghost var pairs := View(ar, i).pairs;
    var keys := KeysOf(ar, i);
    var order := Order(keys, n.b);
    out := b + [0x7b];
    for j := 0 to n.b
      invariant PairsOf(pairs, order[..j], f).Some? && out == b + ([0x7b] + PairsOf(pairs, order[..j], f).value)
    {
      assert order[..j + 1][..j] == order[..j];
      PairsStuck(pairs, order, j + 1, f);
      var good;
      good, out := WritePair(ar, i, order[j], j, out, f);
      if !good { return false, out; }
      Regroup(b, [0x7b], PairsOf(pairs, order[..j], f).value, [], PairOf(pairs, order[j], j, f).value);
    }
    assert order[..n.b] == order;
    ok, out := true, out + [0x7d];
    Close(b, 0x7b, PairsOf(pairs, order, f).value, 0x7d);
  }

  method KeysOf(ar: Arena, i: nat) returns (keys: seq<seq<byte>>)
    requires WF(ar) && i < |ar.nodes| && ar.nodes[i].kind.ItMap?
    ensures View(ar, i).Map? && keys == Keys(View(ar, i).pairs) && |keys| == ar.nodes[i].b
  {
    hide View, NodeOk;
    var n := ar.nodes[i];
    MapCount(ar, i);
    keys := [];
    for j := 0 to n.b
      invariant |keys| == j && forall k :: 0 <= k < j ==> keys[k] == View(ar, i).pairs[k].0
    {
      KidBelow(ar, i, 2 * j);
      MapPairAt(ar, i, j);
      KeyHeld(ar, i, j);
      keys := keys + [Str(ar, ar.nodes[ar.kids[n.a + 2 * j]])];
    }
  }

  lemma KeyHeld(ar: Arena, i: nat, j: nat)
    requires WF(ar) && i < |ar.nodes| && ar.nodes[i].kind.ItMap? && j < ar.nodes[i].b
    ensures var at := ar.nodes[i].a + 2 * j;
            && at < |ar.kids| && ar.kids[at] < |ar.nodes| && ar.nodes[ar.kids[at]].kind.ItText?
            && Held(ar, ar.nodes[ar.kids[at]])
            && NameOf(ar, ar.kids[at]) == Str(ar, ar.nodes[ar.kids[at]])
  {
    assert NodeOk(ar, ar.nodes[i], i);
    var k := ar.kids[Slot(ar.nodes[i], 2 * j)];
    assert k < i && ar.nodes[k].kind.ItText?;
    assert NodeOk(ar, ar.nodes[k], k);
  }

  method WritePair(ar: Arena, i: nat, p: nat, n: nat, b: seq<byte>, f: Forms) returns (ok: bool, out: seq<byte>)
    requires WF(ar) && i < |ar.nodes| && ar.nodes[i].kind.ItMap? && p < ar.nodes[i].b
    ensures View(ar, i).Map? && |View(ar, i).pairs| == ar.nodes[i].b
    ensures var j := PairOf(View(ar, i).pairs, p, n, f); ok == j.Some? && (ok ==> out == b + [] + j.value)
    decreases i, 0, 0
  {
    hide View, NodeOk;
    var node := ar.nodes[i];
    MapCount(ar, i);
    MapPairAt(ar, i, p);
    KeyHeld(ar, i, p);
    KidBelow(ar, i, 2 * p + 1);
    var key := f.quote(Str(ar, ar.nodes[ar.kids[node.a + 2 * p]]));
    if key.None? { return false, b; }
    ok, out := WriteJson(ar, ar.kids[node.a + 2 * p + 1], b + Comma(n) + key.value + [0x3a], f);
    if ok {
      Flat(b, Comma(n), key.value, [0x3a], JsonOf(View(ar, i).pairs[p].1, f).value);
    }
  }

  lemma Flat(b: seq<byte>, comma: seq<byte>, key: seq<byte>, colon: seq<byte>, x: seq<byte>)
    ensures b + comma + key + colon + x == b + [] + (comma + (key + (colon + x)))
  {
  }
}
