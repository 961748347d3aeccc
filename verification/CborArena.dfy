/**
 The arena of query/node_cbor.go as a value: flat lists of nodes, of the children of containers, and of
 the texts, chunked strings and instants nodes refer to. `View` is the item a node stands for; it is
 defined because a finished container only refers to nodes before its own, so no chain of children loops.
 */
module CborArena {
  import opened Bytes
  import opened CborItem

  datatype Kind =
    | ItNull | ItFalse | ItTrue | ItInt | ItUint | ItNegBig | ItFloat | ItNumText | ItText | ItBytes
    | ItArray | ItMap | ItInstant | ItDate | ItUuid | ItBadTag

  datatype Node = Node(kind: Kind, chunked: bool, a: nat, b: nat, extra: nat)

  datatype Arena = Arena(
    data: seq<byte>, nodes: seq<Node>, kids: seq<nat>, strs: seq<seq<byte>>, blobs: seq<seq<byte>>, times: seq<Item>)

  function Leaf(kind: Kind, extra: nat): Node {
    Node(kind, false, 0, 0, extra)
  }

  /** A Go uint64 read as an int64, and back. */
  function ToInt64(u: nat): int {
    if u < TWO63 then u else u - TWO64
  }

  function OfInt64(n: int): (u: nat)
    requires IsInt64(n)
    ensures IsUint64(u) && ToInt64(u) == n
  {
    if n >= 0 then n else n + TWO64
  }

  function Slots(n: Node): nat {
    if n.kind.ItArray? then n.b else if n.kind.ItMap? then 2 * n.b else 0
  }

  /** Where child j of container n is kept. A map keeps its pairs one after the other, each key before its value. */
  function Slot(n: Node, j: nat): nat {
    n.a + j
  }

  predicate IsString(n: Node) {
    n.kind.ItText? || n.kind.ItBytes? || n.kind.ItUuid?
  }

  /** A string's bytes are a slice of the data, or a chunked string of the blob list. */
  predicate Held(ar: Arena, n: Node) {
    if n.chunked then n.a < |ar.blobs| && n.b == |ar.blobs[n.a]| else n.a + n.b <= |ar.data|
  }

  predicate IsInstant(x: Item) {
    x.TimeText? || x.TimeEpoch? || x.TimeFloat?
  }

  ghost predicate NodeOk(ar: Arena, n: Node, i: nat)
    requires i <= |ar.nodes|
  {
    && (n.kind.ItInt? || n.kind.ItDate? ==> IsUint64(n.extra))
    && (n.kind.ItUint? || n.kind.ItNegBig? ==> n.extra >= TWO63)
    && (IsString(n) ==> Held(ar, n))
    && (n.kind.ItNumText? ==> n.a < |ar.strs| && IsIntText(ar.strs[n.a])
                              && ar.strs[n.a] == IntText(IntVal(ar.strs[n.a])))
    && (n.kind.ItInstant? ==> n.extra < |ar.times| && IsInstant(ar.times[n.extra]))
    && (Slots(n) > 0 ==> n.a + Slots(n) <= |ar.kids|)
    && (forall j :: 0 <= j < Slots(n) ==> ar.kids[Slot(n, j)] < i)
    && (n.kind.ItMap? ==> forall j :: 0 <= j < n.b ==> ar.nodes[ar.kids[Slot(n, 2 * j)]].kind.ItText?)
  }

  /** Every finished node is in bounds and refers only to nodes before it. */
  ghost predicate WF(ar: Arena) {
    forall i :: 0 <= i < |ar.nodes| ==> NodeOk(ar, ar.nodes[i], i)
  }

  function Str(ar: Arena, n: Node): seq<byte>
    requires IsString(n) && Held(ar, n)
  {
    if n.chunked then ar.blobs[n.a] else ar.data[n.a..n.a + n.b]
  }

  /** The item a node stands for. */
  ghost function View(ar: Arena, i: nat): Item
    requires WF(ar) && i < |ar.nodes|
    decreases i
  {
    var n := ar.nodes[i];
    assert NodeOk(ar, n, i);
    match n.kind
    case ItNull => Null
    case ItFalse => Bool(false)
    case ItTrue => Bool(true)
    case ItInt => Int(ToInt64(n.extra))
    case ItUint => Int(n.extra)
    case ItNegBig => Int(-1 - n.extra)
    case ItFloat => Float(n.b, n.extra)
    case ItNumText => if n.b == 0 then Big(IntVal(ar.strs[n.a])) else Dec(IntVal(ar.strs[n.a]), ToInt64(n.extra))
    case ItText => Text(Str(ar, n))
    case ItBytes => Blob(Str(ar, n))
    case ItUuid => Uuid(Str(ar, n))
    case ItInstant => ar.times[n.extra]
    case ItDate => Date(ToInt64(n.extra))
    case ItBadTag => BadTag(n.extra)
    case ItArray => Arr(seq(n.b, j requires 0 <= j < n.b => View(ar, ar.kids[Slot(n, j)])))
    case ItMap => Map(seq(n.b, j requires 0 <= j < n.b => (NameOf(ar, ar.kids[Slot(n, 2 * j)]),
                                                           View(ar, ar.kids[Slot(n, 2 * j + 1)]))))
  }

  /** The text of a key. */
  ghost function NameOf(ar: Arena, i: nat): seq<byte>
    requires WF(ar) && i < |ar.nodes| && ar.nodes[i].kind.ItText?
  {
    assert NodeOk(ar, ar.nodes[i], i);
    Str(ar, ar.nodes[i])
  }

  lemma NodeOkAt(ar: Arena, i: nat)
    requires WF(ar) && i < |ar.nodes|
    ensures NodeOk(ar, ar.nodes[i], i)
  {
    hide NodeOk;
  }

  // ---- growing an arena --------------------------------------------------------------------

  /** ar2 is ar1 with more appended: what the finished nodes of ar1 own or refer to is untouched. */
  ghost predicate Grows(ar1: Arena, ar2: Arena) {
    && ar2.data == ar1.data
    && ar1.nodes <= ar2.nodes && ar1.strs <= ar2.strs && ar1.blobs <= ar2.blobs && ar1.times <= ar2.times
    && |ar1.kids| <= |ar2.kids|
    && forall i, j :: 0 <= i < |ar1.nodes| && 0 <= j < Slots(ar1.nodes[i]) && Slot(ar1.nodes[i], j) < |ar1.kids| ==>
         ar2.kids[Slot(ar1.nodes[i], j)] == ar1.kids[Slot(ar1.nodes[i], j)]
  }

  lemma GrowsNodeOk(ar1: Arena, ar2: Arena, i: nat)
    requires WF(ar1) && Grows(ar1, ar2) && i < |ar1.nodes|
    ensures ar2.nodes[i] == ar1.nodes[i] && NodeOk(ar2, ar2.nodes[i], i)
  {
    hide IntText, IntVal;
    assert NodeOk(ar1, ar1.nodes[i], i);
  }

  /** Growing keeps the arena well formed once the new nodes are. */
  lemma GrowsWF(ar1: Arena, ar2: Arena)
    requires WF(ar1) && Grows(ar1, ar2)
    requires forall i :: |ar1.nodes| <= i < |ar2.nodes| ==> NodeOk(ar2, ar2.nodes[i], i)
    ensures WF(ar2)
  {
    hide NodeOk;
    forall i | 0 <= i < |ar2.nodes| ensures NodeOk(ar2, ar2.nodes[i], i) {
      if i < |ar1.nodes| {
        GrowsNodeOk(ar1, ar2, i);
      }
    }
  }

  /** No node finished before changes what it stands for. */
  lemma {:induction false} GrowsView(ar1: Arena, ar2: Arena, i: nat)
    requires WF(ar1) && WF(ar2) && Grows(ar1, ar2) && i < |ar1.nodes|
    ensures View(ar2, i) == View(ar1, i)
    decreases i
  {
    hide IntText, IntVal, WF;
    var n := ar1.nodes[i];
    NodeOkAt(ar1, i);
    NodeOkAt(ar2, i);
    forall j | 0 <= j < Slots(n)
      ensures ar2.kids[Slot(n, j)] == ar1.kids[Slot(n, j)]
      ensures View(ar2, ar1.kids[Slot(n, j)]) == View(ar1, ar1.kids[Slot(n, j)])
    {
      GrowsView(ar1, ar2, ar1.kids[Slot(n, j)]);
    }
  }

  lemma GrowsTrans(ar1: Arena, ar2: Arena, ar3: Arena)
    requires WF(ar1) && Grows(ar1, ar2) && Grows(ar2, ar3)
    ensures Grows(ar1, ar3)
  {
  }

  /** The containers finished since `count` nodes own no slot before `floor`. */
  ghost predicate Fresh(ar: Arena, count: nat, floor: nat) {
    forall i :: count <= i < |ar.nodes| && Slots(ar.nodes[i]) > 0 ==> ar.nodes[i].a >= floor
  }

  /** What reading items between two positions does: it only appends, and adds no more nodes than it takes bytes. */
  ghost predicate Progress(ar1: Arena, p1: nat, ar2: Arena, p2: nat) {
    && Grows(ar1, ar2) && ar1.data == ar2.data && ar1.nodes <= ar2.nodes && ar1.kids <= ar2.kids
    && Fresh(ar2, |ar1.nodes|, |ar1.kids|)
    && p1 <= p2 && |ar2.nodes| - |ar1.nodes| <= p2 - p1
  }

  lemma ProgressTrans(ar1: Arena, p1: nat, ar2: Arena, p2: nat, ar3: Arena, p3: nat)
    requires WF(ar1) && Progress(ar1, p1, ar2, p2) && Progress(ar2, p2, ar3, p3)
    ensures Progress(ar1, p1, ar3, p3)
  {
    GrowsTrans(ar1, ar2, ar3);
  }

  lemma ProgressSelf(ar: Arena, p: nat)
    ensures Progress(ar, p, ar, p)
  {
  }

  lemma AddNode(ar: Arena, n: Node)
    requires WF(ar) && NodeOk(ar, n, |ar.nodes|)
    ensures var ar2 := ar.(nodes := ar.nodes + [n]); WF(ar2) && Grows(ar, ar2)
  {
    hide IntText, IntVal;
    var ar2 := ar.(nodes := ar.nodes + [n]);
    assert NodeOk(ar2, n, |ar.nodes|);
    GrowsWF(ar, ar2);
  }

  /** Appending to the side lists, or to the child list, disturbs no node. */
  lemma AddSide(ar: Arena, ar2: Arena)
    requires WF(ar) && ar2.data == ar.data && ar2.nodes == ar.nodes
    requires ar.kids <= ar2.kids && ar.strs <= ar2.strs && ar.blobs <= ar2.blobs && ar.times <= ar2.times
    ensures WF(ar2) && Grows(ar, ar2)
  {
    GrowsWF(ar, ar2);
  }

  /** Filling a slot that a container reserved but no finished node owns disturbs no node. */
  lemma FillSlot(ar0: Arena, ar: Arena, hi: nat, k: nat, e: nat)
    requires WF(ar0) && WF(ar) && ar0.nodes <= ar.nodes
    requires |ar0.kids| <= k < hi <= |ar.kids| && Fresh(ar, |ar0.nodes|, hi)
    ensures var ar2 := ar.(kids := ar.kids[k := e]); WF(ar2) && Grows(ar, ar2)
  {
    var ar2 := ar.(kids := ar.kids[k := e]);
    forall i, j | 0 <= i < |ar.nodes| && 0 <= j < Slots(ar.nodes[i]) && Slot(ar.nodes[i], j) < |ar.kids|
      ensures ar2.kids[Slot(ar.nodes[i], j)] == ar.kids[Slot(ar.nodes[i], j)]
    {
      if i < |ar0.nodes| {
        assert NodeOk(ar0, ar0.nodes[i], i);
      }
    }
    GrowsWF(ar, ar2);
  }

  /** One child lands while its container, begun on ar1, still fills the slots from |ar1.kids| to hi. */
  lemma FillStep(ar1: Arena, p1: nat, mid: Arena, pm: nat, cur: Arena, pc: nat, hi: nat, k: nat, e: nat)
    requires WF(ar1) && WF(cur) && Progress(ar1, p1, mid, pm) && Progress(mid, pm, cur, pc)
    requires Fresh(mid, |ar1.nodes|, hi) && |ar1.kids| <= k < hi <= |mid.kids|
    ensures var cur2 := cur.(kids := cur.kids[k := e]);
            WF(cur2) && Grows(cur, cur2) && Progress(ar1, p1, cur2, pc) && Fresh(cur2, |ar1.nodes|, hi)
  {
    hide WF;
    assert Fresh(cur, |ar1.nodes|, hi);
    FillSlot(ar1, cur, hi, k, e);
    ProgressTrans(ar1, p1, mid, pm, cur, pc);
    GrowsTrans(ar1, cur, cur.(kids := cur.kids[k := e]));
  }

  // ---- lists of nodes ------------------------------------------------------------------------

  ghost predicate InBounds(ar: Arena, idxs: seq<nat>) {
    forall j :: 0 <= j < |idxs| ==> idxs[j] < |ar.nodes|
  }

  ghost function Views(ar: Arena, idxs: seq<nat>): (xs: seq<Item>)
    requires WF(ar) && InBounds(ar, idxs)
    ensures |xs| == |idxs| && forall j :: 0 <= j < |xs| ==> xs[j] == View(ar, idxs[j])
  {
    seq(|idxs|, j requires 0 <= j < |idxs| => View(ar, idxs[j]))
  }

  ghost predicate AreNames(ar: Arena, idxs: seq<nat>) {
    InBounds(ar, idxs) && forall j :: 0 <= j < |idxs| ==> ar.nodes[idxs[j]].kind.ItText?
  }

  ghost function NamesOf(ar: Arena, idxs: seq<nat>): (ns: seq<seq<byte>>)
    requires WF(ar) && AreNames(ar, idxs)
    ensures |ns| == |idxs| && forall j :: 0 <= j < |ns| ==> ns[j] == NameOf(ar, idxs[j])
  {
    seq(|idxs|, j requires 0 <= j < |idxs| => NameOf(ar, idxs[j]))
  }

  lemma GrowsLists(ar1: Arena, ar2: Arena, idxs: seq<nat>)
    requires WF(ar1) && WF(ar2) && Grows(ar1, ar2) && InBounds(ar1, idxs)
    ensures InBounds(ar2, idxs) && Views(ar2, idxs) == Views(ar1, idxs)
    ensures AreNames(ar1, idxs) ==> AreNames(ar2, idxs) && NamesOf(ar2, idxs) == NamesOf(ar1, idxs)
  {
    hide View;
    forall j | 0 <= j < |idxs|
      ensures View(ar2, idxs[j]) == View(ar1, idxs[j])
      ensures ar1.nodes[idxs[j]].kind.ItText? ==> NameOf(ar2, idxs[j]) == NameOf(ar1, idxs[j])
    {
      GrowsView(ar1, ar2, idxs[j]);
      assert NodeOk(ar1, ar1.nodes[idxs[j]], idxs[j]);
    }
  }

  /** The kind of a node and the case of its item go together. */
  lemma KindView(ar: Arena, i: nat)
    requires WF(ar) && i < |ar.nodes|
    ensures var n, x := ar.nodes[i], View(ar, i);
            && NodeOk(ar, n, i) && (IsString(n) ==> Held(ar, n))
            && (x.Text? <==> n.kind.ItText?) && (x.Blob? <==> n.kind.ItBytes?) && (x.Float? <==> n.kind.ItFloat?)
            && (x.Text? || x.Blob? ==> x.s == Str(ar, n) && |x.s| == n.b)
            && (x.Float? ==> x.width == n.b && x.bits == n.extra)
            && (x.Int? <==> n.kind.ItInt? || n.kind.ItUint? || n.kind.ItNegBig?)
            && (x.Int? && IsInt64(x.n) <==> n.kind.ItInt?) && (x.Int? && x.n >= TWO63 <==> n.kind.ItUint?)
            && (n.kind.ItInt? ==> x.n == ToInt64(n.extra))
            && (x.Big? <==> n.kind.ItNumText? && n.b == 0)
            && (x.Arr? <==> n.kind.ItArray?) && (x.Arr? ==> |x.items| == n.b)
  {
    assert NodeOk(ar, ar.nodes[i], i);
  }

  /** integerText: the digits of an integer node. */
  function IntegerText(ar: Arena, n: Node): seq<byte>
    requires n.kind.ItNumText? ==> n.a < |ar.strs|
  {
    match n.kind
    case ItInt => IntText(ToInt64(n.extra))
    case ItUint => IntText(n.extra)
    case ItNegBig => IntText(-1 - n.extra)
    case ItNumText => if n.b == 0 then ar.strs[n.a] else []
    case _ => []
  }

  /** It is empty for a node that is no integer, and otherwise the canonical digits of the integer. */
  lemma IntegerTextView(ar: Arena, i: nat)
    requires WF(ar) && i < |ar.nodes|
    ensures NodeOk(ar, ar.nodes[i], i)
    ensures var x, t := View(ar, i), IntegerText(ar, ar.nodes[i]);
            if HasIntegerText(x) then t == IntText(x.n) && t != [] else t == []
  {
    hide IntText, IntVal;
    assert NodeOk(ar, ar.nodes[i], i);
    if ar.nodes[i].kind.ItNumText? {
      assert IsIntText(ar.strs[ar.nodes[i].a]);
    } else if HasIntegerText(View(ar, i)) {
      assert IsIntText(IntText(View(ar, i).n));
    }
  }

  lemma NameView(ar: Arena, i: nat)
    requires WF(ar) && i < |ar.nodes|
    ensures ar.nodes[i].kind.ItText? <==> View(ar, i).Text?
    ensures ar.nodes[i].kind.ItText? ==> View(ar, i) == Text(NameOf(ar, i))
  {
  }

  /** The pairs of a list that alternates keys and values. */
  ghost predicate ArePairs(ar: Arena, idxs: seq<nat>) {
    && |idxs| % 2 == 0 && InBounds(ar, idxs)
    && forall j :: 0 <= j < |idxs| / 2 ==> ar.nodes[idxs[2 * j]].kind.ItText?
  }

  ghost function PairsOf(ar: Arena, idxs: seq<nat>): (ps: seq<(seq<byte>, Item)>)
    requires WF(ar) && ArePairs(ar, idxs)
    ensures |ps| == |idxs| / 2
    ensures forall j :: 0 <= j < |ps| ==> ps[j] == (NameOf(ar, idxs[2 * j]), View(ar, idxs[2 * j + 1]))
  {
    seq(|idxs| / 2, j requires 0 <= j < |idxs| / 2 => (NameOf(ar, idxs[2 * j]), View(ar, idxs[2 * j + 1])))
  }

  lemma GrowsPairs(ar1: Arena, ar2: Arena, idxs: seq<nat>)
    requires WF(ar1) && WF(ar2) && Grows(ar1, ar2) && ArePairs(ar1, idxs)
    ensures ArePairs(ar2, idxs) && PairsOf(ar2, idxs) == PairsOf(ar1, idxs)
  {
    hide View;
    GrowsLists(ar1, ar2, idxs);
    forall j | 0 <= j < |idxs| / 2
      ensures ar2.nodes[idxs[2 * j]].kind.ItText?
      ensures PairsOf(ar1, idxs)[j] == (NameOf(ar2, idxs[2 * j]), View(ar2, idxs[2 * j + 1]))
    {
      assert Views(ar2, idxs)[2 * j + 1] == Views(ar1, idxs)[2 * j + 1];
      assert NodeOk(ar1, ar1.nodes[idxs[2 * j]], idxs[2 * j]);
    }
  }

  lemma ArrayView(ar: Arena, i: nat)
    requires WF(ar) && i < |ar.nodes| && ar.nodes[i].kind.ItArray? && ar.nodes[i].a + ar.nodes[i].b <= |ar.kids|
    ensures var ks := ar.kids[ar.nodes[i].a..ar.nodes[i].a + ar.nodes[i].b];
            InBounds(ar, ks) && View(ar, i) == Arr(Views(ar, ks))
  {
    var n := ar.nodes[i];
    var ks := ar.kids[n.a..n.a + n.b];
    assert NodeOk(ar, n, i);
    forall j | 0 <= j < n.b ensures ks[j] == ar.kids[Slot(n, j)] < i {
    }
  }

  /** The slots of a map hold pairs. */
  lemma MapSlots(ar: Arena, i: nat)
    requires WF(ar) && i < |ar.nodes| && ar.nodes[i].kind.ItMap? && ar.nodes[i].a + 2 * ar.nodes[i].b <= |ar.kids|
    ensures ArePairs(ar, ar.kids[ar.nodes[i].a..ar.nodes[i].a + 2 * ar.nodes[i].b])
  {
    hide IntText, IntVal, WF, View;
    var n := ar.nodes[i];
    var ks := ar.kids[n.a..n.a + 2 * n.b];
    NodeOkAt(ar, i);
    forall j | 0 <= j < Slots(n) ensures ks[j] == ar.kids[Slot(n, j)] < i {
    }
    forall j | 0 <= j < n.b ensures ar.nodes[ks[2 * j]].kind.ItText? {
      assert ks[2 * j] == ar.kids[Slot(n, 2 * j)];
    }
  }

  lemma MapPairAt(ar: Arena, i: nat, j: nat)
    requires WF(ar) && i < |ar.nodes| && ar.nodes[i].kind.ItMap? && j < ar.nodes[i].b
    ensures NodeOk(ar, ar.nodes[i], i)
    ensures var n, x := ar.nodes[i], View(ar, i);
            x.Map? && |x.pairs| == n.b && x.pairs[j]
            == (NameOf(ar, ar.kids[Slot(n, 2 * j)]), View(ar, ar.kids[Slot(n, 2 * j + 1)]))
  {
    hide IntText, IntVal, NameOf;
    assert NodeOk(ar, ar.nodes[i], i);
  }

  lemma MapView(ar: Arena, i: nat)
    requires WF(ar) && i < |ar.nodes| && ar.nodes[i].kind.ItMap? && ar.nodes[i].a + 2 * ar.nodes[i].b <= |ar.kids|
    ensures var ks := ar.kids[ar.nodes[i].a..ar.nodes[i].a + 2 * ar.nodes[i].b];
            ArePairs(ar, ks) && View(ar, i) == Map(PairsOf(ar, ks))
  {
    MapSlots(ar, i);
    MapPairs(ar, i);
  }

  lemma MapPairs(ar: Arena, i: nat)
    requires WF(ar) && i < |ar.nodes| && ar.nodes[i].kind.ItMap? && ar.nodes[i].a + 2 * ar.nodes[i].b <= |ar.kids|
    requires ArePairs(ar, ar.kids[ar.nodes[i].a..ar.nodes[i].a + 2 * ar.nodes[i].b])
    ensures View(ar, i) == Map(PairsOf(ar, ar.kids[ar.nodes[i].a..ar.nodes[i].a + 2 * ar.nodes[i].b]))
  {
    hide WF, NodeOk, ArePairs, View;
    MapCount(ar, i);
    var ps := PairsOf(ar, ar.kids[ar.nodes[i].a..ar.nodes[i].a + 2 * ar.nodes[i].b]);
    forall j | 0 <= j < |ps| ensures View(ar, i).pairs[j] == ps[j] {
      hide PairsOf;
      MapPairEq(ar, i, j);
    }
    assert View(ar, i).pairs == ps;
  }

  lemma MapPairEq(ar: Arena, i: nat, j: nat)
    requires WF(ar) && i < |ar.nodes| && ar.nodes[i].kind.ItMap? && ar.nodes[i].a + 2 * ar.nodes[i].b <= |ar.kids|
    requires ArePairs(ar, ar.kids[ar.nodes[i].a..ar.nodes[i].a + 2 * ar.nodes[i].b]) && j < ar.nodes[i].b
    ensures View(ar, i).Map? && |View(ar, i).pairs| == ar.nodes[i].b
    ensures View(ar, i).pairs[j] == PairsOf(ar, ar.kids[ar.nodes[i].a..ar.nodes[i].a + 2 * ar.nodes[i].b])[j]
  {
    hide WF, NodeOk, NameOf, ArePairs, View, PairsOf;
    var n := ar.nodes[i];
    var ks := ar.kids[n.a..n.a + 2 * n.b];
    var k := 2 * j;
    assert ks[k] == ar.kids[n.a + k] && ks[k + 1] == ar.kids[n.a + (k + 1)];
    PairsOfAt(ar, ks, j, k);
    MapPairAt(ar, i, j);
  }

  lemma PairsOfAt(ar: Arena, idxs: seq<nat>, j: nat, k: nat)
    requires WF(ar) && ArePairs(ar, idxs) && k == 2 * j && k < |idxs|
    ensures |PairsOf(ar, idxs)| == |idxs| / 2 && k + 1 < |idxs|
    ensures idxs[k] < |ar.nodes| && ar.nodes[idxs[k]].kind.ItText? && idxs[k + 1] < |ar.nodes|
    ensures PairsOf(ar, idxs)[j] == (NameOf(ar, idxs[k]), View(ar, idxs[k + 1]))
  {
    hide WF, NodeOk, NameOf, View;
  }

  lemma MapCount(ar: Arena, i: nat)
    requires WF(ar) && i < |ar.nodes| && ar.nodes[i].kind.ItMap?
    ensures View(ar, i).Map? && |View(ar, i).pairs| == ar.nodes[i].b
  {
    hide NodeOk;
  }
}
