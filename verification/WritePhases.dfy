/**
 The two phases of the Writing Algorithm (query/write_dml.go): in which order the statements of a tree run,
 and why that order is right.
 */
module WritePhases {
  import opened WriteTree
  import opened WriteStatements

  // ---- the order of the statements ------------------------------------------------------------------

  /** Phase 1: outgoing children, the node, incoming children; nothing for a node without rows. */
  function Plan1(t: Node, link: Link, pop: set<nat>): seq<Site>
    decreases t, 0
  {
    if t.mode.READONLY? || t.id !in pop then []
    else Plan1All(t.outgoing, Out(t), pop) + ([Site(t, link)] + Plan1All(t.incoming, In(t), pop))
  }

  function Plan1All(ts: seq<Node>, link: Link, pop: set<nat>): seq<Site>
    decreases ts, 0
  {
    if ts == [] then [] else Plan1(ts[0], link, pop) + Plan1All(ts[1..], link, pop)
  }

  predicate HasDelete(m: Mode) {
    m == MERGE || m == MERGE_NEW || m == MERGE_UPDATE || m == DELETE_ONLY
  }

  /**
   checkWriteModePlacement and the check of to-one joins: the modes that delete are for incoming joins only. A tree that
   is not placed is refused before anything is written.
   */
  predicate Placed(t: Node, link: Link)
    decreases t, 0
  {
    (HasDelete(t.mode) ==> link.In?) && PlacedAll(t.outgoing, Out(t)) && PlacedAll(t.incoming, In(t))
  }

  predicate PlacedAll(ts: seq<Node>, link: Link)
    decreases ts, 0
  {
    ts == [] || (Placed(ts[0], link) && PlacedAll(ts[1..], link))
  }

  /** Phase 2: children first, then the node's own delete when its parent has rows. */
  function Plan2(t: Node, link: Link, pop: set<nat>): seq<Site>
    decreases t, 0
  {
    if t.mode.READONLY? then []
    else
      (if t.id in pop then Plan2All(t.incoming, In(t), pop) + Plan2All(t.outgoing, Out(t), pop) else [])
      + (if HasDelete(t.mode) && (link.Root? || link.parent.id in pop) then [Site(t, link)] else [])
  }

  function Plan2All(ts: seq<Node>, link: Link, pop: set<nat>): seq<Site>
    decreases ts, 0
  {
    if ts == [] then [] else Plan2(ts[0], link, pop) + Plan2All(ts[1..], link, pop)
  }

  datatype Statement = Write(site: Site) | Delete(site: Site)

  function Writes(plan: seq<Site>): (q: seq<Statement>)
    ensures |q| == |plan| && forall i :: 0 <= i < |q| ==> q[i] == Write(plan[i])
  {
    seq(|plan|, i requires 0 <= i < |plan| => Write(plan[i]))
  }

  function Deletes(plan: seq<Site>): (q: seq<Statement>)
    ensures |q| == |plan| && forall i :: 0 <= i < |q| ==> q[i] == Delete(plan[i])
  {
    seq(|plan|, i requires 0 <= i < |plan| => Delete(plan[i]))
  }

  /** The compiler queues the statements of both phases; they are sent together, in order. */
  class DmlCompiler {
    const populated: set<nat>
    var queue: seq<Statement>

    constructor (populated: set<nat>)
      ensures queue == [] && this.populated == populated
    {
      this.populated := populated;
      queue := [];
    }

    method Phase1(node: Node, link: Link)
      modifies this
      ensures queue == old(queue) + Writes(Plan1(node, link, populated))
      decreases node, 1
    {
      hide Writes;
      if node.mode == READONLY {
        NoStatements();
        return;
      }
      if node.id !in populated {
        NoStatements();
        return;
      }
      ghost var outs, ins := Plan1All(node.outgoing, Out(node), populated),
          Plan1All(node.incoming, In(node), populated);
      Phase1All(node.outgoing, Out(node));
      queue := queue + [Write(Site(node, link))];
      Phase1All(node.incoming, In(node));
      WritesJoin(outs, [Site(node, link)] + ins);
      WritesJoin([Site(node, link)], ins);
      OneWrite(Site(node, link));
      assert old(queue) + Writes(outs) + [Write(Site(node, link))] + Writes(ins)
          == old(queue) + (Writes(outs) + ([Write(Site(node, link))] + Writes(ins)));
    }

    method Phase1All(nodes: seq<Node>, link: Link)
      modifies this
      ensures queue == old(queue) + Writes(Plan1All(nodes, link, populated))
      decreases nodes, 1
    {
      hide Writes;
      if nodes == [] {
        NoStatements();
      } else {
        Phase1(nodes[0], link);
        Phase1All(nodes[1..], link);
        WritesJoin(Plan1(nodes[0], link, populated), Plan1All(nodes[1..], link, populated));
      }
    }

    method Phase2(node: Node, link: Link)
      modifies this
      ensures queue == old(queue) + Deletes(Plan2(node, link, populated))
      decreases node, 1
    {
      hide Deletes;
      NoStatements();
      if node.mode == READONLY {
        return;
      }
      ghost var ins: seq<Site>, outs: seq<Site>, own: seq<Site> := [], [], [];
      if node.id in populated {
        Phase2All(node.incoming, In(node));
        Phase2All(node.outgoing, Out(node));
        ins, outs := Plan2All(node.incoming, In(node), populated), Plan2All(node.outgoing, Out(node), populated);
      }
      if HasDelete(node.mode) && (link.Root? || link.parent.id in populated) {
        queue := queue + [Delete(Site(node, link))];
        OneDelete(Site(node, link));
        own := [Site(node, link)];
      }
      DeletesAfter(old(queue), ins, outs, own);
    }

    method Phase2All(nodes: seq<Node>, link: Link)
      modifies this
      ensures queue == old(queue) + Deletes(Plan2All(nodes, link, populated))
      decreases nodes, 1
    {
      hide Deletes;
      if nodes == [] {
        NoStatements();
      } else {
        Phase2(nodes[0], link);
        Phase2All(nodes[1..], link);
        DeletesJoin(Plan2(nodes[0], link, populated), Plan2All(nodes[1..], link, populated));
      }
    }
  }

  lemma NoStatements()
    ensures Writes([]) == [] && Deletes([]) == []
  {
  }

  lemma OneWrite(s: Site)
    ensures Writes([s]) == [Write(s)]
  {
  }

  lemma OneDelete(s: Site)
    ensures Deletes([s]) == [Delete(s)]
  {
  }

  lemma WritesJoin(a: seq<Site>, b: seq<Site>)
    ensures Writes(a + b) == Writes(a) + Writes(b)
  {
  }

  lemma DeletesJoin(a: seq<Site>, b: seq<Site>)
    ensures Deletes(a + b) == Deletes(a) + Deletes(b)
  {
  }

  lemma DeletesAfter(q: seq<Statement>, ins: seq<Site>, outs: seq<Site>, own: seq<Site>)
    ensures q + Deletes(ins) + Deletes(outs) + Deletes(own) == q + Deletes(ins + outs + own)
  {
    hide Deletes;
    DeletesJoin(ins, outs);
    DeletesJoin(ins + outs, own);
  }

  // ---- the sites of a tree ------------------------------------------------------------------------------

  ghost predicate SiteIn(t: Node, link: Link, s: Site)
    decreases t, 0
  {
    !t.mode.READONLY? && (s == Site(t, link) || SiteInAll(t.outgoing, Out(t), s) || SiteInAll(t.incoming, In(t), s))
  }

  ghost predicate SiteInAll(ts: seq<Node>, link: Link, s: Site)
    decreases ts, 0
  {
    ts != [] && (SiteIn(ts[0], link, s) || SiteInAll(ts[1..], link, s))
  }

  lemma {:induction false} SiteRange(t: Node, link: Link, s: Site, from: nat)
    requires Numbered(t, from) && SiteIn(t, link, s)
    ensures from <= s.n.id < from + Count(t) && !s.n.mode.READONLY?
    decreases t, 0
  {
    if s != Site(t, link) {
      if SiteInAll(t.outgoing, Out(t), s) {
        SiteRangeAll(t.outgoing, Out(t), s, from + 1);
      } else {
        SiteRangeAll(t.incoming, In(t), s, from + 1 + CountAll(t.outgoing));
      }
    }
  }

  lemma {:induction false} SiteRangeAll(ts: seq<Node>, link: Link, s: Site, from: nat)
    requires NumberedAll(ts, from) && SiteInAll(ts, link, s)
    ensures from <= s.n.id < from + CountAll(ts) && !s.n.mode.READONLY?
    decreases ts, 0
  {
    hide SiteIn, Numbered, Count;
    if SiteIn(ts[0], link, s) {
      SiteRange(ts[0], link, s, from);
    } else {
      SiteRangeAll(ts[1..], link, s, from + Count(ts[0]));
    }
  }

  /** A node id names one place in the tree. */
  lemma {:induction false} SiteUnique(t: Node, link: Link, a: Site, b: Site, from: nat)
    requires Numbered(t, from) && SiteIn(t, link, a) && SiteIn(t, link, b) && a.n.id == b.n.id
    ensures a == b
    decreases t, 0
  {
    var k := from + 1 + CountAll(t.outgoing);
    forall s | SiteInAll(t.outgoing, Out(t), s) ensures from < s.n.id < k {
      SiteRangeAll(t.outgoing, Out(t), s, from + 1);
    }
    forall s | SiteInAll(t.incoming, In(t), s) ensures k <= s.n.id {
      SiteRangeAll(t.incoming, In(t), s, k);
    }
    if SiteInAll(t.outgoing, Out(t), a) && SiteInAll(t.outgoing, Out(t), b) {
      SiteUniqueAll(t.outgoing, Out(t), a, b, from + 1);
    } else if SiteInAll(t.incoming, In(t), a) && SiteInAll(t.incoming, In(t), b) {
      SiteUniqueAll(t.incoming, In(t), a, b, k);
    }
  }

  lemma {:induction false} SiteUniqueAll(ts: seq<Node>, link: Link, a: Site, b: Site, from: nat)
    requires NumberedAll(ts, from) && SiteInAll(ts, link, a) && SiteInAll(ts, link, b) && a.n.id == b.n.id
    ensures a == b
    decreases ts, 0
  {
    hide SiteIn, Numbered, Count;
    var k := from + Count(ts[0]);
    forall s | SiteIn(ts[0], link, s) ensures s.n.id < k {
      SiteRange(ts[0], link, s, from);
    }
    forall s | SiteInAll(ts[1..], link, s) ensures k <= s.n.id {
      SiteRangeAll(ts[1..], link, s, k);
    }
    if SiteIn(ts[0], link, a) && SiteIn(ts[0], link, b) {
      SiteUnique(ts[0], link, a, b, from);
    } else {
      SiteUniqueAll(ts[1..], link, a, b, k);
    }
  }

  /** The place of a node's parent. */
  lemma {:induction false} ParentSite(t: Node, link: Link, s: Site) returns (p: Site)
    requires SiteIn(t, link, s) && s != Site(t, link)
    ensures SiteIn(t, link, p) && !s.link.Root? && p.n == s.link.parent
    ensures s.link.In? ==> s.n in p.n.incoming
    ensures s.link.Out? ==> s.n in p.n.outgoing
    decreases t, 0
  {
    if SiteInAll(t.outgoing, Out(t), s) {
      p := ParentSiteAll(t, link, t.outgoing, Out(t), s);
    } else {
      p := ParentSiteAll(t, link, t.incoming, In(t), s);
    }
  }

  lemma {:induction false} ParentSiteAll(t: Node, up: Link, ts: seq<Node>, link: Link, s: Site) returns (p: Site)
    requires !t.mode.READONLY? && SiteInAll(ts, link, s)
    requires (link == Out(t) && forall c :: c in ts ==> c in t.outgoing)
             || (link == In(t) && forall c :: c in ts ==> c in t.incoming)
    requires forall s' :: SiteInAll(ts, link, s') ==> SiteIn(t, up, s')
    ensures SiteIn(t, up, p) && !s.link.Root? && p.n == s.link.parent
    ensures s.link.In? ==> s.n in p.n.incoming
    ensures s.link.Out? ==> s.n in p.n.outgoing
    decreases ts, 0
  {
    if s == Site(ts[0], link) {
      p := Site(t, up);
    } else if SiteIn(ts[0], link, s) {
      p := ParentSite(ts[0], link, s);
    } else {
      p := ParentSiteAll(t, up, ts[1..], link, s);
    }
  }

  /** A written outgoing child of a site has a site of its own. */
  lemma {:induction false} OutgoingSite(t: Node, link: Link, s: Site, k: Node)
    requires SiteIn(t, link, s) && k in s.n.outgoing && !k.mode.READONLY?
    ensures SiteIn(t, link, Site(k, Out(s.n)))
    decreases t, 0
  {
    if s == Site(t, link) {
      OutgoingMember(t.outgoing, Out(t), k);
    } else if SiteInAll(t.outgoing, Out(t), s) {
      OutgoingSiteAll(t.outgoing, Out(t), s, k);
    } else {
      OutgoingSiteAll(t.incoming, In(t), s, k);
    }
  }

  lemma {:induction false} OutgoingSiteAll(ts: seq<Node>, link: Link, s: Site, k: Node)
    requires SiteInAll(ts, link, s) && k in s.n.outgoing && !k.mode.READONLY?
    ensures SiteInAll(ts, link, Site(k, Out(s.n)))
    decreases ts, 0
  {
    if SiteIn(ts[0], link, s) {
      OutgoingSite(ts[0], link, s, k);
    } else {
      OutgoingSiteAll(ts[1..], link, s, k);
    }
  }

  lemma {:induction false} OutgoingMember(ts: seq<Node>, link: Link, k: Node)
    requires k in ts && !k.mode.READONLY?
    ensures SiteInAll(ts, link, Site(k, link))
    decreases ts, 0
  {
    if k != ts[0] {
      OutgoingMember(ts[1..], link, k);
    }
  }

  // ---- what the plans hold ----------------------------------------------------------------------------------

  lemma {:induction false} Plan1Sites(t: Node, link: Link, pop: set<nat>)
    ensures forall s :: s in Plan1(t, link, pop) ==> SiteIn(t, link, s) && s.n.id in pop
    decreases t, 0
  {
    if !t.mode.READONLY? && t.id in pop {
      Plan1SitesAll(t.outgoing, Out(t), pop);
      Plan1SitesAll(t.incoming, In(t), pop);
    }
  }

  lemma {:induction false} Plan1SitesAll(ts: seq<Node>, link: Link, pop: set<nat>)
    ensures forall s :: s in Plan1All(ts, link, pop) ==> SiteInAll(ts, link, s) && s.n.id in pop
    decreases ts, 0
  {
    hide SiteIn, Plan1;
    if ts != [] {
      Plan1Sites(ts[0], link, pop);
      Plan1SitesAll(ts[1..], link, pop);
    }
  }

  lemma {:induction false} Plan2Sites(t: Node, link: Link, pop: set<nat>)
    ensures forall s :: s in Plan2(t, link, pop) ==> SiteIn(t, link, s)
    decreases t, 0
  {
    if !t.mode.READONLY? && t.id in pop {
      Plan2SitesAll(t.outgoing, Out(t), pop);
      Plan2SitesAll(t.incoming, In(t), pop);
    }
  }

  lemma {:induction false} Plan2SitesAll(ts: seq<Node>, link: Link, pop: set<nat>)
    ensures forall s :: s in Plan2All(ts, link, pop) ==> SiteInAll(ts, link, s)
    decreases ts, 0
  {
    hide SiteIn, Plan2;
    if ts != [] {
      Plan2Sites(ts[0], link, pop);
      Plan2SitesAll(ts[1..], link, pop);
    }
  }

  lemma {:induction false} PlacedSite(t: Node, link: Link, s: Site)
    requires Placed(t, link) && SiteIn(t, link, s) && HasDelete(s.n.mode)
    ensures s.link.In?
    decreases t, 0
  {
    if s != Site(t, link) {
      if SiteInAll(t.outgoing, Out(t), s) {
        PlacedSiteAll(t.outgoing, Out(t), s);
      } else {
        PlacedSiteAll(t.incoming, In(t), s);
      }
    }
  }

  lemma {:induction false} PlacedSiteAll(ts: seq<Node>, link: Link, s: Site)
    requires PlacedAll(ts, link) && SiteInAll(ts, link, s) && HasDelete(s.n.mode)
    ensures s.link.In?
    decreases ts, 0
  {
    if SiteIn(ts[0], link, s) {
      PlacedSite(ts[0], link, s);
    } else {
      PlacedSiteAll(ts[1..], link, s);
    }
  }

  lemma {:induction false} Plan2Modes(t: Node, link: Link, pop: set<nat>)
    ensures forall s :: s in Plan2(t, link, pop) ==> HasDelete(s.n.mode) && (s.link.Root? || s.link.parent.id in pop)
    decreases t, 0
  {
    if !t.mode.READONLY? && t.id in pop {
      Plan2ModesAll(t.outgoing, Out(t), pop);
      Plan2ModesAll(t.incoming, In(t), pop);
    }
  }

  lemma {:induction false} Plan2ModesAll(ts: seq<Node>, link: Link, pop: set<nat>)
    ensures forall s :: s in Plan2All(ts, link, pop) ==>
                          HasDelete(s.n.mode) && (s.link.Root? || s.link.parent.id in pop)
    decreases ts, 0
  {
    hide Plan2;
    if ts != [] {
      Plan2Modes(ts[0], link, pop);
      Plan2ModesAll(ts[1..], link, pop);
    }
  }

  /** The deletes of a placed tree are those of its merging incoming nodes under parents with rows. */
  lemma PlacedDeletes(t: Node, pop: set<nat>, s: Site)
    requires Placed(t, Root) && Closed(t, Root, pop)
    ensures s in Plan2(t, Root, pop) <==> SiteIn(t, Root, s) && HasDelete(s.n.mode) && s.link.In?
                                          && s.link.parent.id in pop
  {
    hide Plan2, SiteIn, Placed, Closed;
    Plan2Sites(t, Root, pop);
    Plan2Modes(t, Root, pop);
    if SiteIn(t, Root, s) && HasDelete(s.n.mode) {
      PlacedSite(t, Root, s);
      if s.link.parent.id in pop {
        Plan2Has(t, Root, pop, s);
      }
    }
  }

  ghost predicate DistinctIds(plan: seq<Site>) {
    forall i, j :: 0 <= i < j < |plan| ==> plan[i].n.id != plan[j].n.id
  }

  lemma DistinctJoin(a: seq<Site>, b: seq<Site>)
    requires DistinctIds(a) && DistinctIds(b) && forall x, y :: x in a && y in b ==> x.n.id != y.n.id
    ensures DistinctIds(a + b)
  {
    var all := a + b;
    forall i, j | 0 <= i < j < |all| ensures all[i].n.id != all[j].n.id {
      if i < |a| <= j {
        assert a[i] in a && b[j - |a|] in b;
      }
    }
  }

  /** No node's statement runs twice. */
  lemma {:induction false} Plan1Distinct(t: Node, link: Link, pop: set<nat>, from: nat)
    requires Numbered(t, from)
    ensures DistinctIds(Plan1(t, link, pop))
    decreases t, 0
  {
    hide DistinctIds;
    if !t.mode.READONLY? && t.id in pop {
      var k := from + 1 + CountAll(t.outgoing);
      var outs, own, ins := Plan1All(t.outgoing, Out(t), pop), [Site(t, link)], Plan1All(t.incoming, In(t), pop);
      Plan1DistinctAll(t.outgoing, Out(t), pop, from + 1);
      Plan1DistinctAll(t.incoming, In(t), pop, k);
      DistinctOne(Site(t, link));
      PlanRange(t.outgoing, Out(t), pop, from + 1);
      PlanRange(t.incoming, In(t), pop, k);
      DistinctJoin(own, ins);
      DistinctJoin(outs, own + ins);
    } else {
      DistinctNone();
    }
  }

  lemma DistinctOne(s: Site)
    ensures DistinctIds([s])
  {
  }

  lemma DistinctNone()
    ensures DistinctIds([])
  {
  }

  lemma PlanRange(ts: seq<Node>, link: Link, pop: set<nat>, from: nat)
    requires NumberedAll(ts, from)
    ensures forall s :: s in Plan1All(ts, link, pop) ==> from <= s.n.id < from + CountAll(ts)
  {
    Plan1SitesAll(ts, link, pop);
    forall s | s in Plan1All(ts, link, pop) ensures from <= s.n.id < from + CountAll(ts) {
      SiteRangeAll(ts, link, s, from);
    }
  }

  lemma {:induction false} Plan1DistinctAll(ts: seq<Node>, link: Link, pop: set<nat>, from: nat)
    requires NumberedAll(ts, from)
    ensures DistinctIds(Plan1All(ts, link, pop))
    decreases ts, 0
  {
    hide DistinctIds, Plan1, SiteIn, Numbered, Count;
    if ts == [] {
      DistinctNone();
    } else {
      var k := from + Count(ts[0]);
      Plan1Distinct(ts[0], link, pop, from);
      Plan1DistinctAll(ts[1..], link, pop, k);
      Plan1Sites(ts[0], link, pop);
      PlanRange(ts[1..], link, pop, k);
      forall s | s in Plan1(ts[0], link, pop) ensures s.n.id < k {
        SiteRange(ts[0], link, s, from);
      }
      DistinctJoin(Plan1(ts[0], link, pop), Plan1All(ts[1..], link, pop));
    }
  }

  lemma {:induction false} Plan2Distinct(t: Node, link: Link, pop: set<nat>, from: nat)
    requires Numbered(t, from)
    ensures DistinctIds(Plan2(t, link, pop))
    decreases t, 0
  {
    hide DistinctIds;
    DistinctNone();
    if !t.mode.READONLY? {
      var k := from + 1 + CountAll(t.outgoing);
      var outs, ins := Plan2All(t.outgoing, Out(t), pop), Plan2All(t.incoming, In(t), pop);
      Plan2DistinctAll(t.outgoing, Out(t), pop, from + 1);
      Plan2DistinctAll(t.incoming, In(t), pop, k);
      DistinctOne(Site(t, link));
      DeleteRange(t.outgoing, Out(t), pop, from + 1);
      DeleteRange(t.incoming, In(t), pop, k);
      DistinctJoin(ins, outs);
      var kids := if t.id in pop then ins + outs else [];
      var own := if HasDelete(t.mode) && (link.Root? || link.parent.id in pop) then [Site(t, link)] else [];
      DistinctJoin(kids, own);
    }
  }

  lemma DeleteRange(ts: seq<Node>, link: Link, pop: set<nat>, from: nat)
    requires NumberedAll(ts, from)
    ensures forall s :: s in Plan2All(ts, link, pop) ==> from <= s.n.id < from + CountAll(ts)
  {
    Plan2SitesAll(ts, link, pop);
    forall s | s in Plan2All(ts, link, pop) ensures from <= s.n.id < from + CountAll(ts) {
      SiteRangeAll(ts, link, s, from);
    }
  }

  lemma {:induction false} Plan2DistinctAll(ts: seq<Node>, link: Link, pop: set<nat>, from: nat)
    requires NumberedAll(ts, from)
    ensures DistinctIds(Plan2All(ts, link, pop))
    decreases ts, 0
  {
    hide DistinctIds, Plan2, SiteIn, Numbered, Count;
    if ts == [] {
      DistinctNone();
    } else {
      var k := from + Count(ts[0]);
      Plan2Distinct(ts[0], link, pop, from);
      Plan2DistinctAll(ts[1..], link, pop, k);
      Plan2Sites(ts[0], link, pop);
      DeleteRange(ts[1..], link, pop, k);
      forall s | s in Plan2(ts[0], link, pop) ensures s.n.id < k {
        SiteRange(ts[0], link, s, from);
      }
      DistinctJoin(Plan2(ts[0], link, pop), Plan2All(ts[1..], link, pop));
    }
  }

  // ---- rows of a node mean rows of its parent ------------------------------------------------------------------

  /** A node with rows has a parent with rows. */
  ghost predicate Closed(t: Node, link: Link, pop: set<nat>) {
    forall s :: SiteIn(t, link, s) && s.n.id in pop && !s.link.Root? ==> s.link.parent.id in pop
  }

  lemma {:induction false} Plan1Has(t: Node, link: Link, pop: set<nat>, s: Site)
    requires SiteIn(t, link, s) && s.n.id in pop
    requires Closed(t, link, pop)
    ensures s in Plan1(t, link, pop) && t.id in pop
    decreases t, 0
  {
    if s != Site(t, link) {
      if SiteInAll(t.outgoing, Out(t), s) {
        Plan1HasAll(t.outgoing, Out(t), pop, s);
      } else {
        Plan1HasAll(t.incoming, In(t), pop, s);
      }
    }
  }

  lemma {:induction false} Plan1HasAll(ts: seq<Node>, link: Link, pop: set<nat>, s: Site)
    requires SiteInAll(ts, link, s) && s.n.id in pop && !link.Root?
    requires forall s' :: SiteInAll(ts, link, s') && s'.n.id in pop && !s'.link.Root? ==> s'.link.parent.id in pop
    ensures s in Plan1All(ts, link, pop) && link.parent.id in pop
    decreases ts, 0
  {
    if SiteIn(ts[0], link, s) {
      Plan1Has(ts[0], link, pop, s);
      assert SiteInAll(ts, link, Site(ts[0], link));
    } else {
      Plan1HasAll(ts[1..], link, pop, s);
    }
  }

  lemma {:induction false} Plan2Has(t: Node, link: Link, pop: set<nat>, s: Site)
    requires SiteIn(t, link, s) && HasDelete(s.n.mode) && (s.link.Root? || s.link.parent.id in pop)
             && (!link.Root? ==> link.parent.id in pop)
    requires Closed(t, link, pop)
    ensures s in Plan2(t, link, pop)
    decreases t, 0
  {
    if s != Site(t, link) {
      var p := ParentSite(t, link, s);
      Plan1Has(t, link, pop, p);
      if SiteInAll(t.outgoing, Out(t), s) {
        Plan2HasAll(t.outgoing, Out(t), pop, s);
      } else {
        Plan2HasAll(t.incoming, In(t), pop, s);
      }
    }
  }

  lemma {:induction false} Plan2HasAll(ts: seq<Node>, link: Link, pop: set<nat>, s: Site)
    requires SiteInAll(ts, link, s) && HasDelete(s.n.mode) && (s.link.Root? || s.link.parent.id in pop)
             && (!link.Root? ==> link.parent.id in pop)
    requires forall s' :: SiteInAll(ts, link, s') && s'.n.id in pop && !s'.link.Root? ==> s'.link.parent.id in pop
    ensures s in Plan2All(ts, link, pop)
    decreases ts, 0
  {
    if SiteIn(ts[0], link, s) {
      Plan2Has(ts[0], link, pop, s);
    } else {
      Plan2HasAll(ts[1..], link, pop, s);
    }
  }

  // ---- key sources before their readers --------------------------------------------------------------------------

  /** A parent's key is read by its incoming children, an outgoing child's by its parent: the source comes first. */
  ghost predicate SourceFirst(plan: seq<Site>, s: Site) {
    && !s.link.Root?
    && exists i, j :: 0 <= i < |plan| && 0 <= j < |plan| && plan[i].n == s.link.parent && plan[j] == s
                      && (s.link.In? ==> i < j) && (s.link.Out? ==> j < i)
  }

  lemma SourceFirstWithin(a: seq<Site>, plan: seq<Site>, b: seq<Site>, s: Site)
    requires SourceFirst(plan, s)
    ensures SourceFirst(a + (plan + b), s)
  {
    var i, j :| 0 <= i < |plan| && 0 <= j < |plan| && plan[i].n == s.link.parent && plan[j] == s
                && (s.link.In? ==> i < j) && (s.link.Out? ==> j < i);
    var all := a + (plan + b);
    assert all[|a| + i] == plan[i] && all[|a| + j] == plan[j];
  }

  lemma {:induction false} KeyOrder(t: Node, link: Link, pop: set<nat>, s: Site)
    requires s in Plan1(t, link, pop) && s != Site(t, link)
    ensures SourceFirst(Plan1(t, link, pop), s)
    decreases t, 0
  {
    hide SourceFirst;
    var outs, own, ins := Plan1All(t.outgoing, Out(t), pop), Site(t, link), Plan1All(t.incoming, In(t), pop);
    var plan := Plan1(t, link, pop);
    if s in outs {
      if s.link == Out(t) {
        var j :| 0 <= j < |outs| && outs[j] == s;
        FirstOut(outs, own, ins, s, j);
      } else {
        KeyOrderAll(t.outgoing, Out(t), pop, s);
        assert plan == [] + (outs + ([own] + ins));
        SourceFirstWithin([], outs, [own] + ins, s);
      }
    } else {
      if s.link == In(t) {
        var j :| 0 <= j < |ins| && ins[j] == s;
        FirstIn(outs, own, ins, s, j);
      } else {
        KeyOrderAll(t.incoming, In(t), pop, s);
        assert plan == (outs + [own]) + (ins + []);
        SourceFirstWithin(outs + [own], ins, [], s);
      }
    }
  }

  lemma FirstOut(outs: seq<Site>, own: Site, ins: seq<Site>, s: Site, j: nat)
    requires j < |outs| && outs[j] == s && s.link == Out(own.n)
    ensures SourceFirst(outs + ([own] + ins), s)
  {
    var plan := outs + ([own] + ins);
    assert plan[|outs|] == own && plan[j] == s;
  }

  lemma FirstIn(outs: seq<Site>, own: Site, ins: seq<Site>, s: Site, j: nat)
    requires j < |ins| && ins[j] == s && s.link == In(own.n)
    ensures SourceFirst(outs + ([own] + ins), s)
  {
    var plan := outs + ([own] + ins);
    assert plan[|outs|] == own && plan[|outs| + 1 + j] == s;
  }

  lemma {:induction false} KeyOrderAll(ts: seq<Node>, link: Link, pop: set<nat>, s: Site)
    requires s in Plan1All(ts, link, pop) && s.link != link
    ensures SourceFirst(Plan1All(ts, link, pop), s)
    decreases ts, 0
  {
    hide SourceFirst, Plan1;
    var first, rest := Plan1(ts[0], link, pop), Plan1All(ts[1..], link, pop);
    if s in first {
      KeyOrder(ts[0], link, pop, s);
      assert first + rest == [] + (first + rest);
      SourceFirstWithin([], first, rest, s);
    } else {
      KeyOrderAll(ts[1..], link, pop, s);
      assert first + rest == first + (rest + []);
      SourceFirstWithin(first, rest, [], s);
    }
  }

  // ---- children are deleted before their parents ------------------------------------------------------------------

  /** Wherever a site and its parent's are both in a plan, the site comes first. */
  ghost predicate ChildFirst(plan: seq<Site>, s: Site) {
    !s.link.Root? ==> forall i, j :: 0 <= i < |plan| && 0 <= j < |plan| && plan[i] == s && plan[j].n == s.link.parent
                                     ==> i < j
  }

  ghost predicate ChildrenFirst(plan: seq<Site>) {
    forall s :: s in plan ==> ChildFirst(plan, s)
  }

  /** Two plans, the first without a parent of the second's sites. */
  lemma FirstJoin(a: seq<Site>, b: seq<Site>)
    requires ChildrenFirst(a) && ChildrenFirst(b)
    requires forall x, y :: x in a && y in b ==> y.link.Root? || x.n != y.link.parent
    ensures ChildrenFirst(a + b)
  {
    var plan := a + b;
    forall s, i, j | s in plan && !s.link.Root? && 0 <= i < |plan| && 0 <= j < |plan| && plan[i] == s
    && plan[j].n == s.link.parent
      ensures i < j
    {
      assert j < |a| ==> plan[j] in a;
      assert i >= |a| ==> plan[i] in b;
      if i < |a| && j < |a| {
        assert a[i] in a && ChildFirst(a, a[i]);
      } else if i >= |a| && j >= |a| {
        assert b[i - |a|] in b && ChildFirst(b, b[i - |a|]);
      }
    }
  }

  /** The parent of a site below another is numbered with it. */
  lemma ParentRange(t: Node, link: Link, s: Site, from: nat)
    requires Numbered(t, from) && SiteIn(t, link, s)
    ensures s == Site(t, link) || (!s.link.Root? && from <= s.link.parent.id < from + Count(t))
  {
    hide Numbered, SiteIn, Count;
    if s != Site(t, link) {
      var p := ParentSite(t, link, s);
      SiteRange(t, link, p, from);
    }
  }

  /** Phase 2 deletes from children before their parents. */
  lemma {:induction false} DeleteOrder(t: Node, link: Link, pop: set<nat>, from: nat)
    requires Numbered(t, from) && (link.Root? || link.parent.id < from)
    ensures ChildrenFirst(Plan2(t, link, pop))
    decreases t, 0
  {
    hide ChildrenFirst, Plan2All, NumberedAll, SiteInAll;
    if t.mode.READONLY? {
      NoneFirst();
    } else {
      var ins, outs := Plan2All(t.incoming, In(t), pop), Plan2All(t.outgoing, Out(t), pop);
      var k := from + 1 + CountAll(t.outgoing);
      DeleteOrderAll(t.outgoing, Out(t), pop, from + 1);
      DeleteOrderAll(t.incoming, In(t), pop, k);
      DeleteRange(t.outgoing, Out(t), pop, from + 1);
      DeleteRange(t.incoming, In(t), pop, k);
      Plan2SitesAll(t.outgoing, Out(t), pop);
      Plan2SitesAll(t.incoming, In(t), pop);
      ParentsRange(t.outgoing, Out(t), pop, from + 1);
      ParentsRange(t.incoming, In(t), pop, k);
      var own := if HasDelete(t.mode) && (link.Root? || link.parent.id in pop) then [Site(t, link)] else [];
      NoneFirst();
      OneFirst(Site(t, link));
      FirstJoin(ins, outs);
      var below := if t.id in pop then ins + outs else [];
      assert Plan2(t, link, pop) == below + own;
      FirstJoin(below, own);
    }
  }

  lemma NoneFirst()
    ensures ChildrenFirst([])
  {
  }

  lemma OneFirst(s: Site)
    ensures s.link.Root? || s.n != s.link.parent ==> ChildrenFirst([s])
  {
  }

  /** The parents of the deletes under a node are that node or numbered among them. */
  lemma ParentsRange(ts: seq<Node>, link: Link, pop: set<nat>, from: nat)
    requires NumberedAll(ts, from) && !link.Root?
    ensures forall s :: s in Plan2All(ts, link, pop) ==>
                          !s.link.Root? && (s.link.parent == link.parent
                                            || from <= s.link.parent.id < from + CountAll(ts))
    decreases ts, 0
  {
    hide Plan2, Numbered, Count;
    if ts != [] {
      ParentsRange(ts[1..], link, pop, from + Count(ts[0]));
      Plan2Sites(ts[0], link, pop);
      forall s | s in Plan2(ts[0], link, pop)
        ensures !s.link.Root? && (s.link.parent == link.parent || from <= s.link.parent.id < from + CountAll(ts))
      {
        ParentRange(ts[0], link, s, from);
      }
    }
  }

  lemma {:induction false} DeleteOrderAll(ts: seq<Node>, link: Link, pop: set<nat>, from: nat)
    requires NumberedAll(ts, from) && !link.Root? && link.parent.id < from
    ensures ChildrenFirst(Plan2All(ts, link, pop))
    decreases ts, 0
  {
    hide ChildrenFirst, Plan2, Numbered, Count, SiteIn;
    if ts == [] {
      NoneFirst();
    } else {
      var k := from + Count(ts[0]);
      DeleteOrder(ts[0], link, pop, from);
      DeleteOrderAll(ts[1..], link, pop, k);
      Plan2Sites(ts[0], link, pop);
      DeleteRange(ts[1..], link, pop, k);
      ParentsRange(ts[1..], link, pop, k);
      forall s | s in Plan2(ts[0], link, pop) ensures from <= s.n.id < k {
        SiteRange(ts[0], link, s, from);
      }
      FirstJoin(Plan2(ts[0], link, pop), Plan2All(ts[1..], link, pop));
    }
  }
}
