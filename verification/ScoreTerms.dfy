/** What one entity adds to a chunk's score, said of walks, edges and spans. */
module ScoreTerms {
  import opened Schemas
  import opened EntityGraphs
  import opened Traversal
  import Order

  /** The shortest walk from an entry to `v` has `d` edges. */
  ghost predicate AtDistance(g: Graph, entries: set<string>, v: string, d: nat) {
    Reaches(g, entries, v, d) && (d > 0 ==> !Reaches(g, entries, v, d - 1))
  }

  /** The spans of the entity that name the chunk. */
  function Naming(g: Graph, v: string, chunk: string): set<nat> {
    if v in g.records then
      set i | 0 <= i < |g.records[v].provenance| && g.records[v].provenance[i].chunkId == chunk
    else {}
  }

  /** An edge joins the two, whichever way it is stored. */
  predicate Joined(g: Graph, u: string, v: string) { (u, v) in g.edges || (v, u) in g.edges }

  function EdgeWeight(g: Graph, u: string, v: string): nat {
    if (u, v) in g.edges then g.edges[(u, v)].weight else if (v, u) in g.edges then g.edges[(v, u)].weight else 0
  }

  /** `u` is the alphabetically first entity one step nearer to the entries that is joined to `v`. */
  ghost predicate FirstLink(g: Graph, entries: set<string>, v: string, d: nat, u: string)
    requires d > 0
  {
    && AtDistance(g, entries, u, d - 1) && Joined(g, u, v)
    && forall w :: AtDistance(g, entries, w, d - 1) && Joined(g, w, v) ==> w == u || Order.Earlier(u, w)
  }

  lemma {:induction false} CountIs(provenance: seq<Span>, chunk: string)
    ensures Count(provenance, chunk) == |set i | 0 <= i < |provenance| && provenance[i].chunkId == chunk|
  {
    if provenance != [] {
      var n := |provenance| - 1;
      CountIs(provenance[..n], chunk);
      var last := if provenance[n].chunkId == chunk then {n} else {};
      assert (set i | 0 <= i < |provenance| && provenance[i].chunkId == chunk)
        == (set i | 0 <= i < n && provenance[..n][i].chunkId == chunk) + last;
    }
  }

  lemma EntityCountIs(g: Graph, v: string, chunk: string)
    ensures EntityCount(g, v, chunk) == |Naming(g, v, chunk)|
  {
    if v in g.records { CountIs(g.records[v].provenance, chunk); }
  }

  lemma LayerIs(g: Graph, entries: set<string>, v: string, d: nat)
    requires Slotted(g)
    ensures v in Layer(g, entries, d) <==> AtDistance(g, entries, v, d)
  {
    hide Within, Reaches;
    WithinMeansWalk(g, entries, v, d);
    if d > 0 { WithinMeansWalk(g, entries, v, d - 1); } else { NoWalk(g, entries, v); }
  }

  lemma NoWalk(g: Graph, entries: set<string>, v: string)
    ensures Layer(g, entries, 0) == Within(g, entries, 0)
  {
  }

  lemma JoinedIff(g: Graph, u: string, v: string)
    requires Slotted(g)
    ensures Adjacent(g, u, v) <==> Joined(g, u, v)
    ensures Adjacent(g, u, v) ==> g.edges[SlotOf(u, v)].weight == EdgeWeight(g, u, v)
  {
    hide SlotOf;
    SlotIsUnordered(u, v);
    if (u, v) in g.edges && (v, u) in g.edges {
      assert SlotOf(u, v) == (u, v) && SlotOf(v, u) == (v, u);
    }
    if (u, v) in g.edges { assert SlotOf(u, v) == (u, v); }
    if (v, u) in g.edges { assert SlotOf(v, u) == (v, u); }
  }

  /** Among those that can discover `v` in a layer, the first is the link. */
  lemma SponsorIs(g: Graph, entries: set<string>, v: string, d: nat) returns (u: string)
    requires Slotted(g) && d > 0 && v in Layer(g, entries, d)
    ensures FirstLink(g, entries, v, d, u)
    ensures DiscoveryWeight(g, Layer(g, entries, d - 1), v) == EdgeWeight(g, u, v)
  {
    hide Within, Layer, SlotOf, Adjacent, Reaches, Order.StrLe, Order.Earlier;
    var frontier := Layer(g, entries, d - 1);
    var sponsors := Sponsors(g, frontier, v);
    assert sponsors != {} by { HasSponsor(g, entries, v, d); }
    u := LeastExists(sponsors);
    LeastIsUnique(sponsors, u);
    LayerIs(g, entries, u, d - 1);
    JoinedIff(g, u, v);
    forall w | AtDistance(g, entries, w, d - 1) && Joined(g, w, v) ensures w == u || Order.Earlier(u, w) {
      LayerIs(g, entries, w, d - 1);
      JoinedIff(g, w, v);
      assert w in sponsors;
      Order.StrLeIsEarlier(u, w);
    }
  }

  lemma HasSponsor(g: Graph, entries: set<string>, v: string, d: nat)
    requires Slotted(g) && d > 0 && v in Layer(g, entries, d)
    ensures Sponsors(g, Layer(g, entries, d - 1), v) != {}
  {
    hide SlotOf;
    NeighboursAreAdjacent(g, Within(g, entries, d - 1), v);
    var u :| u in Within(g, entries, d - 1) && Adjacent(g, u, v);
    if d > 1 && u in Within(g, entries, d - 2) {
      NeighboursAreAdjacent(g, Within(g, entries, d - 2), v);
    }
    assert u in Sponsors(g, Layer(g, entries, d - 1), v);
  }

  /** An entity at distance `d` adds its count in the chunk, times the weight of
      its first link over `1 + d`; an entry adds its count alone. */
  lemma TermMeans(g: Graph, entries: set<string>, hops: nat, chunk: string, v: string) returns (d: nat, u: string)
    requires Slotted(g) && v in Within(g, entries, hops)
    ensures d <= hops && AtDistance(g, entries, v, d) && (d > 0 ==> FirstLink(g, entries, v, d, u))
    ensures DistanceTerm(g, entries, hops, chunk)(v)
      == (if d == 0 then 1.0 else EdgeWeight(g, u, v) as real / (d + 1) as real) * |Naming(g, v, chunk)| as real
  {
    hide Within, Layer, SlotOf, Adjacent, Reaches, EntityCount, Naming, DiscoveryWeight, FirstLink, EdgeWeight;
    d := Distance(g, entries, v, hops);
    u := "";
    LayerIs(g, entries, v, d);
    EntityCountIs(g, v, chunk);
    if d > 0 { u := SponsorIs(g, entries, v, d); }
  }
}
