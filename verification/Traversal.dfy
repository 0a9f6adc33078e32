/** Bounded breadth-first chunk scoring over the entity graph, and its closed
    form over shortest distances. */
module Traversal {
  import opened Schemas
  import opened Chunking
  import opened EntityGraphs
  import Order

  // ----- shortest distance -----

  /** All ids that share an edge with some member of `from`. */
  function Neighbours(g: Graph, from: set<string>): set<string> {
    (set s | s in g.edges && s.0 in from :: s.1) + (set s | s in g.edges && s.1 in from :: s.0)
  }

  /** Ids within `k` steps of `entries`. */
  function Within(g: Graph, entries: set<string>, k: nat): set<string> {
    if k == 0 then entries else Within(g, entries, k - 1) + Neighbours(g, Within(g, entries, k - 1))
  }

  /** Ids at distance exactly `d`. */
  function Layer(g: Graph, entries: set<string>, d: nat): set<string> {
    if d == 0 then entries else Within(g, entries, d) - Within(g, entries, d - 1)
  }

  /** Every slot is written with its ends in order, as `SlotOf` does. */
  ghost predicate Slotted(g: Graph) {
    forall s :: s in g.edges ==> SlotOf(s.0, s.1) == s
  }

  lemma NeighboursAreAdjacent(g: Graph, from: set<string>, v: string)
    requires Slotted(g)
    ensures v in Neighbours(g, from) <==> exists u :: u in from && Adjacent(g, u, v)
  {
    if v in Neighbours(g, from) {
      var s :| s in g.edges && ((s.0 in from && s.1 == v) || (s.1 in from && s.0 == v));
      SlotIsUnordered(s.0, s.1);
      var u := if s.0 in from && s.1 == v then s.0 else s.1;
      assert u in from && Adjacent(g, u, v);
    }
    if u :| u in from && Adjacent(g, u, v) { SlotIsUnordered(u, v); }
  }

  /** A walk of the graph: consecutive ids are adjacent. */
  ghost predicate Walk(g: Graph, path: seq<string>) {
    path != [] && forall i :: 0 < i < |path| ==> Adjacent(g, path[i - 1], path[i])
  }

  ghost predicate Reaches(g: Graph, entries: set<string>, v: string, k: nat) {
    exists path: seq<string> :: Walk(g, path) && path[0] in entries && path[|path| - 1] == v && |path| <= k + 1
  }

  lemma {:induction false} WalkStaysWithin(g: Graph, entries: set<string>, path: seq<string>)
    requires Slotted(g) && Walk(g, path) && path[0] in entries
    ensures path[|path| - 1] in Within(g, entries, |path| - 1)
    decreases |path|
  {
    if |path| > 1 {
      var front := path[..|path| - 1];
      WalkStaysWithin(g, entries, front);
      NeighboursAreAdjacent(g, Within(g, entries, |front| - 1), path[|path| - 1]);
    }
  }

  lemma {:induction false} WithinGrows(g: Graph, entries: set<string>, j: nat, k: nat)
    requires j <= k
    ensures Within(g, entries, j) <= Within(g, entries, k)
    decreases k - j
  {
    if j < k { WithinGrows(g, entries, j, k - 1); }
  }

  lemma ExtendWalk(g: Graph, entries: set<string>, u: string, v: string, k: nat)
    requires Reaches(g, entries, u, k) && Adjacent(g, u, v)
    ensures Reaches(g, entries, v, k + 1)
  {
    var path: seq<string> :| Walk(g, path) && path[0] in entries && path[|path| - 1] == u && |path| <= k + 1;
    var longer := path + [v];
    forall i | 0 < i < |longer| ensures Adjacent(g, longer[i - 1], longer[i]) {
      if i < |path| { assert Adjacent(g, path[i - 1], path[i]); }
    }
    assert Walk(g, longer);
  }

  /** `Within` is reachability by walks: `Layer` d is the set at shortest distance d. */
  lemma {:induction false} WithinMeansWalk(g: Graph, entries: set<string>, v: string, k: nat)
    requires Slotted(g)
    ensures v in Within(g, entries, k) <==> Reaches(g, entries, v, k)
    decreases k
  {
    hide SlotOf, Neighbours;
    if v in Within(g, entries, k) {
      if k == 0 {
        assert Walk(g, [v]);
      } else if v in Within(g, entries, k - 1) {
        WithinMeansWalk(g, entries, v, k - 1);
      } else {
        NeighboursAreAdjacent(g, Within(g, entries, k - 1), v);
        var u :| u in Within(g, entries, k - 1) && Adjacent(g, u, v);
        WithinMeansWalk(g, entries, u, k - 1);
        ExtendWalk(g, entries, u, v, k - 1);
      }
    }
    if path: seq<string> :| Walk(g, path) && path[0] in entries && path[|path| - 1] == v && |path| <= k + 1 {
      WalkStaysWithin(g, entries, path);
      WithinGrows(g, entries, |path| - 1, k);
    }
  }

  /** An id has one distance: different layers share nothing. */
  lemma LayersAreDisjoint(g: Graph, entries: set<string>, d: nat, e: nat)
    requires d < e
    ensures Layer(g, entries, d) !! Layer(g, entries, e)
  {
    hide Neighbours;
    WithinGrows(g, entries, d, e - 1);
    assert Layer(g, entries, d) <= Within(g, entries, d);
  }

  /** Once a layer is empty, all later ones are. */
  lemma {:induction false} EmptyLayersStayEmpty(g: Graph, entries: set<string>, d: nat, e: nat)
    requires 0 < d <= e && Layer(g, entries, d) == {}
    ensures Layer(g, entries, e) == {} && Within(g, entries, e) == Within(g, entries, d - 1)
    decreases e - d
  {
    hide Neighbours;
    WithinGrows(g, entries, d - 1, d);
    forall x | x in Within(g, entries, d) ensures x in Within(g, entries, d - 1) {
      assert x !in Within(g, entries, d - 1) ==> x in Layer(g, entries, d);
    }
    if d < e {
      EmptyLayersStayEmpty(g, entries, d, e - 1);
      WithinFromSame(g, entries, d - 1, e - 1);
      WithinGrows(g, entries, d - 1, e);
    }
  }

  lemma WithinFromSame(g: Graph, entries: set<string>, j: nat, k: nat)
    requires Within(g, entries, j) == Within(g, entries, k)
    ensures Within(g, entries, j + 1) == Within(g, entries, k + 1)
  {
  }

  // ----- the score -----

  /** Sum of `f` over a finite set, in whatever order. */
  ghost function Sum(f: string -> real, s: set<string>): real {
    if s == {} then 0.0 else var x :| x in s; f(x) + Sum(f, s - {x})
  }

  lemma {:induction false} SumRemove(f: string -> real, s: set<string>, x: string)
    requires x in s
    ensures Sum(f, s) == f(x) + Sum(f, s - {x})
    decreases s
  {
    var y :| y in s && Sum(f, s) == f(y) + Sum(f, s - {y});
    if y != x {
      SumRemove(f, s - {y}, x);
      SumRemove(f, s - {x}, y);
      assert s - {y} - {x} == s - {x} - {y};
    }
  }

  lemma {:induction false} SumUnion(f: string -> real, a: set<string>, b: set<string>)
    requires a !! b
    ensures Sum(f, a + b) == Sum(f, a) + Sum(f, b)
    decreases a
  {
    if a == {} {
      assert a + b == b;
    } else {
      var x :| x in a;
      SumRemove(f, a, x);
      SumRemove(f, a + b, x);
      SumUnion(f, a - {x}, b);
      assert a + b - {x} == (a - {x}) + b;
    }
  }

  lemma {:induction false} SumCongruent(f: string -> real, h: string -> real, s: set<string>)
    requires forall x :: x in s ==> f(x) == h(x)
    ensures Sum(f, s) == Sum(h, s)
    decreases s
  {
    if s != {} {
      var x :| x in s;
      SumRemove(f, s, x);
      SumRemove(h, s, x);
      SumCongruent(f, h, s - {x});
    }
  }

  lemma {:induction false} SumNonNegative(f: string -> real, s: set<string>)
    requires forall x :: x in s ==> f(x) >= 0.0
    ensures Sum(f, s) >= 0.0
    decreases s
  {
    if s != {} {
      var x :| x in s;
      SumRemove(f, s, x);
      SumNonNegative(f, s - {x});
    }
  }

  /** How often an entity's provenance names a chunk. */
  function Count(provenance: seq<Span>, chunk: string): nat {
    if provenance == [] then 0
    else Count(provenance[..|provenance| - 1], chunk) + if provenance[|provenance| - 1].chunkId == chunk then 1 else 0
  }

  /** The alphabetically first member. */
  ghost predicate IsLeast(s: set<string>, x: string) {
    x in s && forall y :: y in s ==> Order.StrLe(x, y)
  }

  lemma {:induction false} LeastExists(s: set<string>) returns (x: string)
    requires s != {}
    ensures IsLeast(s, x)
    decreases s
  {
    var y :| y in s;
    if s == {y} {
      x := y;
      Order.StrLeTotal(y, y);
    } else {
      var z := LeastExists(s - {y});
      Order.StrLeTotal(y, z);
      Order.StrLeTotal(y, y);
      x := if Order.StrLe(y, z) then y else z;
      forall w | w in s ensures Order.StrLe(x, w) {
        if w != y && x == y { Order.StrLeTransitive(y, z, w); }
      }
    }
  }

  /** The members of `frontier` adjacent to `v`. */
  ghost function Sponsors(g: Graph, frontier: set<string>, v: string): set<string> {
    set u | u in frontier && Adjacent(g, u, v)
  }

  /** The weight `v` is discovered with from `frontier`: that of the edge from its
      smallest-id neighbour there. */
  ghost function DiscoveryWeight(g: Graph, frontier: set<string>, v: string): nat {
    if u :| IsLeast(Sponsors(g, frontier, v), u) then g.edges[SlotOf(u, v)].weight else 0
  }

  /** `discovery_weight / (1 + hop)` */
  ghost function Contribution(g: Graph, frontier: set<string>, d: nat, v: string): real {
    DiscoveryWeight(g, frontier, v) as real / (1 + d) as real
  }

  /** What one entity discovered from `frontier` at hop `d` adds to the score of a chunk. */
  ghost function LayerTerm(g: Graph, frontier: set<string>, d: nat, chunk: string): string -> real {
    v => Times(Contribution(g, frontier, d, v), EntityCount(g, v, chunk))
  }

  function EntityCount(g: Graph, v: string, chunk: string): nat {
    if v in g.records then Count(g.records[v].provenance, chunk) else 0
  }

  /** Entries count once per listing, each with weight 1. */
  function EntryScore(g: Graph, ids: seq<string>, chunk: string): nat {
    if ids == [] then 0 else EntryScore(g, ids[..|ids| - 1], chunk) + EntityCount(g, ids[|ids| - 1], chunk)
  }

  function SetOf(ids: seq<string>): set<string> { set id | id in ids }

  /** What the entities at distance `d >= 1` add to a chunk. */
  ghost function LayerScore(g: Graph, entries: set<string>, d: nat, chunk: string): real
    requires d > 0
  {
    Sum(LayerTerm(g, Layer(g, entries, d - 1), d, chunk), Layer(g, entries, d))
  }

  /** The closed form, layer by layer. */
  ghost function Score(g: Graph, ids: seq<string>, hops: nat, chunk: string): real {
    if hops == 0 then EntryScore(g, ids, chunk) as real
    else Score(g, ids, hops - 1, chunk) + LayerScore(g, SetOf(ids), hops, chunk)
  }

  // ----- score_chunks -----

  function At(scores: map<string, real>, chunk: string): real {
    if chunk in scores then scores[chunk] else 0.0
  }

  /** A contribution counted `n` times. */
  function Times(x: real, n: nat): real { x * n as real }

  lemma TimesNext(x: real, n: nat)
    ensures Times(x, n + 1) == Times(x, n) + x && Times(x, 0) == 0.0
  {
  }

  lemma CountNext(provenance: seq<Span>, i: nat, chunk: string)
    requires i < |provenance|
    ensures Count(provenance[..i + 1], chunk) ==
            Count(provenance[..i], chunk) + if provenance[i].chunkId == chunk then 1 else 0
  {
    assert provenance[..i + 1][..i] == provenance[..i];
  }

  /** `scores` is `scores0` with `x` added to a chunk as often as `provenance` names it. */
  ghost predicate Added(scores0: map<string, real>, scores: map<string, real>, provenance: seq<Span>, x: real) {
    && (forall c :: At(scores, c) == At(scores0, c) + Times(x, Count(provenance, c)))
    && (forall c :: c in scores <==> c in scores0 || Count(provenance, c) > 0)
  }

  /** `chunk_scores[id] = chunk_scores.get(id, 0.0) + contribution`, for every span. */
  method AddProvenance(scores0: map<string, real>, provenance: seq<Span>, contribution: real)
    returns (scores: map<string, real>)
    ensures Added(scores0, scores, provenance, contribution)
  {
    hide Times;
    scores := scores0;
    TimesNext(contribution, 0);
    for i := 0 to |provenance|
      invariant Added(scores0, scores, provenance[..i], contribution)
    {
      var id := provenance[i].chunkId;
      ghost var was, next := scores, i + 1;
      scores := scores[id := At(scores, id) + contribution];
      forall c ensures At(scores, c) == At(scores0, c) + Times(contribution, Count(provenance[..next], c))
               ensures c in scores <==> c in scores0 || Count(provenance[..next], c) > 0 {
        assert At(was, c) == At(scores0, c) + Times(contribution, Count(provenance[..i], c));
        CountNext(provenance, i, c);
        TimesNext(contribution, Count(provenance[..i], c));
      }
    }
    assert provenance[..|provenance|] == provenance;
  }

  method ScoreEntries(eg: EntityGraph, ids: seq<string>) returns (scores: map<string, real>)
    requires forall id :: id in ids ==> id in eg.graph.records
    ensures forall c :: At(scores, c) == EntryScore(eg.graph, ids, c) as real
    ensures forall c :: c in scores <==> EntryScore(eg.graph, ids, c) > 0
  {
    scores := map[];
    for i := 0 to |ids|
      invariant forall c :: At(scores, c) == EntryScore(eg.graph, ids[..i], c) as real
      invariant forall c :: c in scores <==> EntryScore(eg.graph, ids[..i], c) > 0
    {
      assert ids[i] in ids;
      assert ids[..i + 1][..i] == ids[..i];
      ghost var was := scores;
      scores := AddProvenance(scores, eg.graph.records[ids[i]].provenance, 1.0);
      forall c ensures At(scores, c) == EntryScore(eg.graph, ids[..i + 1], c) as real
               ensures c in scores <==> EntryScore(eg.graph, ids[..i + 1], c) > 0 {
        assert At(was, c) == EntryScore(eg.graph, ids[..i], c) as real;
      }
    }
    assert ids[..|ids|] == ids;
  }

  function OtherEnd(r: Relation, id: string): string { if r.subject == id then r.obj else r.subject }

  /** The relations of `u` lead to exactly its neighbours, each with the weight of its edge. */
  lemma RelationsLeadToNeighbours(g: Graph, u: string, r: Relation)
    requires WellFormed(g) && Touches(g, u, r)
    ensures Adjacent(g, u, OtherEnd(r, u)) && g.edges[SlotOf(u, OtherEnd(r, u))] == r
  {
    var s :| s in g.edges && (s.0 == u || s.1 == u) && g.edges[s] == r;
    SlotIsUnordered(r.subject, r.obj);
    SlotIsUnordered(u, OtherEnd(r, u));
  }

  lemma NeighbourHasRelation(g: Graph, u: string, v: string)
    requires WellFormed(g) && Adjacent(g, u, v)
    ensures Touches(g, u, g.edges[SlotOf(u, v)]) && OtherEnd(g.edges[SlotOf(u, v)], u) == v
  {
    SlotIsUnordered(u, v);
    var r := g.edges[SlotOf(u, v)];
    SlotIsUnordered(r.subject, r.obj);
  }

  ghost predicate IsFirst(g: Graph, frontier: seq<string>, i: nat, v: string, j: nat) {
    && i <= |frontier| && j < i && Adjacent(g, frontier[j], v)
    && forall k :: 0 <= k < j ==> !Adjacent(g, frontier[k], v)
  }

  /** What has been discovered once the first `i` members of the frontier are expanded. */
  ghost predicate Discovered(g: Graph, frontier: seq<string>, i: nat, visited: set<string>, found: map<string, nat>) {
    && (forall v :: v in found <==> v !in visited && exists j: nat :: IsFirst(g, frontier, i, v, j))
    && (forall v, j: nat ::
      v in found && IsFirst(g, frontier, i, v, j) ==> found[v] == g.edges[SlotOf(frontier[j], v)].weight)
  }

  /** Expand one member of the frontier: neighbours not visited and not yet discovered. */
  method Expand(eg: EntityGraph, u: string, visited: set<string>, found0: map<string, nat>)
    returns (found: map<string, nat>)
    requires WellFormed(eg.graph)
    ensures forall v :: v in found <==> v in found0 || (v !in visited && Adjacent(eg.graph, u, v))
    ensures forall v :: v in found ==>
      found[v] == if v in found0 then found0[v]
        else if Adjacent(eg.graph, u, v) then eg.graph.edges[SlotOf(u, v)].weight else 0
  {
    hide SlotOf, WellFormed, Touches, Order.Sorted, RelationLe;
    found := found0;
    var relations := eg.NeighborRelations(u);
    for x := 0 to |relations|
      invariant forall v :: v in found <==>
        v in found0 || (v !in visited && exists m :: 0 <= m < x && OtherEnd(relations[m], u) == v)
      invariant forall v :: v in found0 ==> found[v] == found0[v]
      invariant forall v :: v in found && v !in found0 ==>
        Adjacent(eg.graph, u, v) && found[v] == eg.graph.edges[SlotOf(u, v)].weight
    {
      var r := relations[x];
      assert r in relations;
      RelationsLeadToNeighbours(eg.graph, u, r);
      var v := OtherEnd(r, u);
      if v !in visited && v !in found {
        found := found[v := r.weight];
      }
    }
    forall v | v !in visited && Adjacent(eg.graph, u, v) ensures v in found {
      NeighbourHasRelation(eg.graph, u, v);
      var r := eg.graph.edges[SlotOf(u, v)];
      assert r in relations;
      var m :| 0 <= m < |relations| && relations[m] == r;
    }
  }

  lemma FirstIsLeastSponsor(g: Graph, frontier: set<string>, order: seq<string>, v: string, j: nat)
    requires Order.Sorted(order, Order.StrLe) && (forall u :: u in order <==> u in frontier)
    requires IsFirst(g, order, |order|, v, j)
    ensures IsLeast(Sponsors(g, frontier, v), order[j])
    ensures DiscoveryWeight(g, frontier, v) == g.edges[SlotOf(order[j], v)].weight
  {
    hide SlotOf;
    var sponsors := Sponsors(g, frontier, v);
    assert order[j] in order;
    Order.StrLeTotal(order[j], order[j]);
    forall w | w in sponsors ensures Order.StrLe(order[j], w) {
      var k :| 0 <= k < |order| && order[k] == w;
      assert k >= j;
    }
    LeastIsUnique(sponsors, order[j]);
  }

  lemma LeastIsUnique(s: set<string>, x: string)
    requires IsLeast(s, x)
    ensures forall y :: IsLeast(s, y) ==> y == x
  {
    forall y | IsLeast(s, y) ensures y == x { Order.StrLeAntisymmetric(x, y); }
  }

  lemma {:induction false} FirstExists(g: Graph, order: seq<string>, i: nat, v: string, k: nat) returns (j: nat)
    requires k < i <= |order| && Adjacent(g, order[k], v)
    ensures IsFirst(g, order, i, v, j)
    decreases k
  {
    if m :| 0 <= m < k && Adjacent(g, order[m], v) {
      j := FirstExists(g, order, i, v, m);
    } else {
      j := k;
    }
  }

  lemma DiscoveredNext(g: Graph, order: seq<string>, i: nat, visited: set<string>, found0: map<string, nat>,
                       found: map<string, nat>, n: nat)
    requires i < |order| && n == i + 1 && Discovered(g, order, i, visited, found0)
    requires forall v :: v in found <==> v in found0 || (v !in visited && Adjacent(g, order[i], v))
    requires forall v :: v in found ==>
      found[v] == if v in found0 then found0[v]
        else if Adjacent(g, order[i], v) then g.edges[SlotOf(order[i], v)].weight else 0
    ensures Discovered(g, order, n, visited, found)
  {
    hide SlotOf;
    forall v ensures v in found <==> v !in visited && exists j: nat :: IsFirst(g, order, n, v, j) {
      if v in found0 {
        var j: nat :| IsFirst(g, order, i, v, j);
        assert IsFirst(g, order, n, v, j);
      } else if v in found {
        var j := FirstExists(g, order, n, v, i);
      }
      if j: nat :| v !in visited && IsFirst(g, order, n, v, j) {
        if j < i { assert IsFirst(g, order, i, v, j); }
      }
    }
    forall v, j: nat | v in found && IsFirst(g, order, n, v, j)
      ensures found[v] == g.edges[SlotOf(order[j], v)].weight
    {
      if v in found0 {
        var k: nat :| IsFirst(g, order, i, v, k);
        assert k == j;
      } else {
        assert j < i ==> IsFirst(g, order, i, v, j);
      }
    }
  }

  /** Everything found in one hop: the unvisited neighbours of the frontier, each
      with the weight of the edge from its smallest-id neighbour there. */
  ghost predicate HopFinds(g: Graph, frontier: set<string>, visited: set<string>, found: map<string, nat>) {
    && found.Keys == Neighbours(g, frontier) - visited
    && forall v :: v in found ==> found[v] == DiscoveryWeight(g, frontier, v)
  }

  method ListOf(s: set<string>) returns (xs: seq<string>)
    ensures forall x :: x in xs <==> x in s
  {
    xs := [];
    var todo := s;
    while todo != {}
      invariant todo <= s && forall x :: x in xs <==> x in s - todo
    {
      var x :| x in todo;
      xs := xs + [x];
      todo := todo - {x};
    }
  }

  method Discover(eg: EntityGraph, frontier: set<string>, visited: set<string>) returns (found: map<string, nat>)
    requires WellFormed(eg.graph) && Slotted(eg.graph)
    ensures HopFinds(eg.graph, frontier, visited, found)
  {
    hide WellFormed, Slotted, Discovered, Order.SortBy, Adjacent, SlotOf, HopFinds;
    var listed := ListOf(frontier);
    var order := Order.SortBy(listed, Order.StrLe);
    Order.SortedStrings(listed);
    found := map[];
    NothingDiscovered(eg.graph, order, visited);
    for i := 0 to |order|
      invariant Discovered(eg.graph, order, i, visited, found)
    {
      ghost var found0 := found;
      found := Expand(eg, order[i], visited, found);
      DiscoveredNext(eg.graph, order, i, visited, found0, found, i + 1);
    }
    AllDiscovered(eg.graph, frontier, order, visited, found);
  }

  lemma NothingDiscovered(g: Graph, order: seq<string>, visited: set<string>)
    ensures Discovered(g, order, 0, visited, map[])
  {
  }

  lemma AllDiscovered(g: Graph, frontier: set<string>, order: seq<string>, visited: set<string>,
                      found: map<string, nat>)
    requires Slotted(g) && Discovered(g, order, |order|, visited, found)
    requires Order.Sorted(order, Order.StrLe) && forall u :: u in order <==> u in frontier
    ensures HopFinds(g, frontier, visited, found)
  {
    hide Slotted, SlotOf, Adjacent, DiscoveryWeight, Neighbours;
    forall v ensures v in found <==> v in Neighbours(g, frontier) - visited {
      NeighboursAreAdjacent(g, frontier, v);
      if v in found {
        var j: nat :| IsFirst(g, order, |order|, v, j);
        assert order[j] in order;
      }
      if u :| u in frontier && Adjacent(g, u, v) {
        var k :| 0 <= k < |order| && order[k] == u;
        var j := FirstExists(g, order, |order|, v, k);
      }
    }
    forall v | v in found ensures found[v] == DiscoveryWeight(g, frontier, v) {
      var j: nat :| IsFirst(g, order, |order|, v, j);
      FirstIsLeastSponsor(g, frontier, order, v, j);
    }
  }

  // ----- one hop of scoring -----

  /** Scores of all chunks after `hops` hops. */
  ghost predicate Scored(g: Graph, ids: seq<string>, hops: nat, scores: map<string, real>) {
    && (forall c :: At(scores, c) == Score(g, ids, hops, c))
    && (forall c :: c in scores <==> Met(g, ids, hops, c))
  }

  /** A chunk is scored iff some reached entity's provenance names it. */
  ghost predicate Met(g: Graph, ids: seq<string>, hops: nat, c: string) {
    exists v :: v in Within(g, SetOf(ids), hops) && EntityCount(g, v, c) > 0
  }

  /** Anchor every newly discovered entity. */
  method AnchorLayer(eg: EntityGraph, found: map<string, nat>, hop: nat, scores0: map<string, real>,
                     ghost frontier: set<string>) returns (scores: map<string, real>)
    requires forall v :: v in found ==> v in eg.graph.records && found[v] == DiscoveryWeight(eg.graph, frontier, v)
    ensures forall c :: At(scores, c) == At(scores0, c) + Sum(LayerTerm(eg.graph, frontier, hop, c), found.Keys)
    ensures forall c :: c in scores <==> c in scores0 || exists v :: v in found && EntityCount(eg.graph, v, c) > 0
  {
    hide Times, DiscoveryWeight, Sum, LayerAdded, LayerTerm, Contribution, Added;
    scores := scores0;
    var todo := found.Keys;
    NothingAdded(eg.graph, frontier, hop, scores0);
    assert found.Keys - todo == {};
    while todo != {}
      invariant todo <= found.Keys
      invariant LayerAdded(eg.graph, frontier, hop, found.Keys - todo, scores0, scores)
    {
      var v :| v in todo;
      ghost var was, done := scores, found.Keys - todo;
      scores := AddProvenance(scores, eg.graph.records[v].provenance, found[v] as real / (1 + hop) as real);
      todo := todo - {v};
      assert found.Keys - todo == done + {v};
      ContributionIs(eg.graph, frontier, hop, v);
      LayerAddedNext(eg.graph, frontier, hop, done, v, scores0, was, scores);
    }
    assert found.Keys - todo == found.Keys;
    LayerAddedMeans(eg.graph, frontier, hop, found.Keys, scores0, scores);
  }

  /** The entities `done` have been anchored. */
  ghost predicate LayerAdded(g: Graph, frontier: set<string>, hop: nat, done: set<string>, scores0: map<string, real>,
                             scores: map<string, real>)
  {
    && (forall c :: At(scores, c) == At(scores0, c) + Sum(LayerTerm(g, frontier, hop, c), done))
    && (forall c :: c in scores <==> c in scores0 || exists v :: v in done && EntityCount(g, v, c) > 0)
  }

  lemma LayerAddedMeans(g: Graph, frontier: set<string>, hop: nat, done: set<string>, scores0: map<string, real>,
                        scores: map<string, real>)
    requires LayerAdded(g, frontier, hop, done, scores0, scores)
    ensures forall c :: At(scores, c) == At(scores0, c) + Sum(LayerTerm(g, frontier, hop, c), done)
    ensures forall c :: c in scores <==> c in scores0 || exists v :: v in done && EntityCount(g, v, c) > 0
  {
  }

  lemma NothingAdded(g: Graph, frontier: set<string>, hop: nat, scores: map<string, real>)
    ensures LayerAdded(g, frontier, hop, {}, scores, scores)
  {
    SumOfNone(g, frontier, hop);
  }

  lemma ContributionIs(g: Graph, frontier: set<string>, hop: nat, v: string)
    ensures Contribution(g, frontier, hop, v) == DiscoveryWeight(g, frontier, v) as real / (1 + hop) as real
  {
  }

  lemma LayerAddedNext(g: Graph, frontier: set<string>, hop: nat, done: set<string>, v: string,
                       scores0: map<string, real>, was: map<string, real>, scores: map<string, real>)
    requires v in g.records && v !in done && LayerAdded(g, frontier, hop, done, scores0, was)
    requires Added(was, scores, g.records[v].provenance, Contribution(g, frontier, hop, v))
    ensures LayerAdded(g, frontier, hop, done + {v}, scores0, scores)
  {
    hide Sum, LayerTerm, Contribution, Added;
    var now := done + {v};
    forall c
      ensures At(scores, c) == At(scores0, c) + Sum(LayerTerm(g, frontier, hop, c), now)
      ensures c in scores <==> c in scores0 || exists u :: u in now && EntityCount(g, u, c) > 0
    {
      AnchoredOne(g, frontier, hop, done, now, v, c, scores0, was, scores);
    }
  }

  lemma AnchoredOne(g: Graph, frontier: set<string>, hop: nat, done: set<string>, now: set<string>, v: string,
                    c: string, scores0: map<string, real>, was: map<string, real>, scores: map<string, real>)
    requires v in g.records && v !in done && now == done + {v}
    requires At(was, c) == At(scores0, c) + Sum(LayerTerm(g, frontier, hop, c), done)
    requires c in was <==> c in scores0 || exists u :: u in done && EntityCount(g, u, c) > 0
    requires Added(was, scores, g.records[v].provenance, Contribution(g, frontier, hop, v))
    ensures At(scores, c) == At(scores0, c) + Sum(LayerTerm(g, frontier, hop, c), now)
    ensures c in scores <==> c in scores0 || exists u :: u in now && EntityCount(g, u, c) > 0
  {
    hide Times, Sum, Contribution;
    SumRemove(LayerTerm(g, frontier, hop, c), now, v);
    assert now - {v} == done;
    assert EntityCount(g, v, c) == Count(g.records[v].provenance, c);
  }

  lemma SumOfNone(g: Graph, frontier: set<string>, hop: nat)
    ensures forall c, s: set<string> :: s == {} ==> Sum(LayerTerm(g, frontier, hop, c), s) == 0.0
  {
  }

  /** One hop of the loop reaches exactly the next layer. */
  lemma NextLayer(g: Graph, entries: set<string>, hop: nat)
    requires hop > 0
    ensures Neighbours(g, Layer(g, entries, hop - 1)) - Within(g, entries, hop - 1) == Layer(g, entries, hop)
    ensures Within(g, entries, hop - 1) + Layer(g, entries, hop) == Within(g, entries, hop)
  {
    var near, edge := Within(g, entries, hop - 1), Layer(g, entries, hop - 1);
    if hop > 1 {
      WithinGrows(g, entries, hop - 2, hop - 1);
      assert near == edge + Within(g, entries, hop - 2);
      NeighboursOfUnion(g, edge, Within(g, entries, hop - 2));
    }
    WithinGrows(g, entries, hop - 1, hop);
  }

  lemma NeighboursOfUnion(g: Graph, a: set<string>, b: set<string>)
    ensures Neighbours(g, a + b) == Neighbours(g, a) + Neighbours(g, b)
  {
  }

  lemma NeighboursHaveRecords(g: Graph, from: set<string>)
    requires WellFormed(g)
    ensures Neighbours(g, from) <= g.records.Keys
  {
  }

  /** When a hop finds nothing, every later hop would add nothing. */
  lemma {:induction false} ScoreStops(g: Graph, ids: seq<string>, hop: nat, hops: nat, c: string)
    requires 0 < hop <= hops + 1 && Layer(g, SetOf(ids), hop) == {}
    ensures Score(g, ids, hops, c) == Score(g, ids, hop - 1, c)
    ensures Met(g, ids, hops, c) <==> Met(g, ids, hop - 1, c)
    decreases hops
  {
    hide Layer, Within, LayerTerm;
    if hop <= hops {
      ScoreStops(g, ids, hop, hops - 1, c);
      EmptyLayersStayEmpty(g, SetOf(ids), hop, hops);
    }
  }

  lemma LayerScored(g: Graph, ids: seq<string>, hop: nat, scores0: map<string, real>, scores: map<string, real>)
    requires hop > 0 && Scored(g, ids, hop - 1, scores0)
    requires forall c :: At(scores, c) == At(scores0, c) + LayerScore(g, SetOf(ids), hop, c)
    requires forall c ::
      c in scores <==> c in scores0 || exists v :: v in Layer(g, SetOf(ids), hop) && EntityCount(g, v, c) > 0
    ensures Scored(g, ids, hop, scores)
  {
    hide Layer, Within, LayerScore, EntityCount;
    NextLayer(g, SetOf(ids), hop);
    var near, far, all := Within(g, SetOf(ids), hop - 1), Layer(g, SetOf(ids), hop), Within(g, SetOf(ids), hop);
    assert forall v :: v in all <==> v in near || v in far;
  }

  lemma EntriesScored(g: Graph, ids: seq<string>, scores: map<string, real>)
    requires forall c :: At(scores, c) == EntryScore(g, ids, c) as real
    requires forall c :: c in scores <==> EntryScore(g, ids, c) > 0
    ensures Scored(g, ids, 0, scores)
  {
    forall c ensures c in scores <==> Met(g, ids, 0, c) { EntryMet(g, ids, c); }
  }

  lemma {:induction false} EntryMet(g: Graph, ids: seq<string>, c: string)
    ensures EntryScore(g, ids, c) > 0 <==> exists v :: v in SetOf(ids) && EntityCount(g, v, c) > 0
  {
    if ids != [] {
      var front, last := ids[..|ids| - 1], ids[|ids| - 1];
      EntryMet(g, front, c);
      assert ids == front + [last];
      assert SetOf(ids) == SetOf(front) + {last};
    }
  }

  /** `score_chunks`: the closed form, whatever order dictionaries and sets are iterated in. */
  method ScoreChunks(eg: EntityGraph, ids: seq<string>, maxHops: nat) returns (scores: map<string, real>)
    requires WellFormed(eg.graph) && Slotted(eg.graph) && forall id :: id in ids ==> id in eg.graph.records
    ensures Scored(eg.graph, ids, maxHops, scores)
  {
    hide WellFormed, Slotted, Scored, Neighbours, Layer, Within, Sum, LayerTerm;
    ghost var g, entries := eg.graph, SetOf(ids);
    scores := ScoreEntries(eg, ids);
    EntriesScored(g, ids, scores);
    var visited, frontier := SetOf(ids), SetOf(ids);
    StartOfWalk(g, entries);
    var hop := 1;
    while hop <= maxHops
      invariant 1 <= hop <= maxHops + 1
      invariant visited == Within(g, entries, hop - 1) && frontier == Layer(g, entries, hop - 1)
      invariant Scored(g, ids, hop - 1, scores)
    {
      var found := Discover(eg, frontier, visited);
      NextLayer(g, entries, hop);
      NeighboursHaveRecords(g, frontier);
      if found == map[] {
        assert Layer(g, entries, hop) == {};
        StopScoring(g, ids, hop, maxHops, scores);
        return;
      }
      ghost var scores0 := scores;
      scores := AnchorLayer(eg, found, hop, scores, frontier);
      LayerScored(g, ids, hop, scores0, scores);
      visited := visited + found.Keys;
      frontier := found.Keys;
      hop := hop + 1;
    }
  }

  lemma StartOfWalk(g: Graph, entries: set<string>)
    ensures Within(g, entries, 0) == entries && Layer(g, entries, 0) == entries
  {
  }

  lemma StopScoring(g: Graph, ids: seq<string>, hop: nat, hops: nat, scores: map<string, real>)
    requires 0 < hop <= hops && Layer(g, SetOf(ids), hop) == {} && Scored(g, ids, hop - 1, scores)
    ensures Scored(g, ids, hops, scores)
  {
    hide Layer, Met, Score;
    forall c ensures At(scores, c) == Score(g, ids, hops, c) && (c in scores <==> Met(g, ids, hops, c)) {
      ScoreStops(g, ids, hop, hops, c);
    }
  }

  // ----- the closed form over distances -----

  /** Shortest distance from the entries, for an id within `k` steps. */
  ghost function Distance(g: Graph, entries: set<string>, v: string, k: nat): (d: nat)
    requires v in Within(g, entries, k)
    ensures d <= k && v in Layer(g, entries, d)
  {
    if k > 0 && v in Within(g, entries, k - 1) then Distance(g, entries, v, k - 1) else k
  }

  /** `w / (1 + d)` times the provenance count: `w` is 1 for an entry, otherwise the
      weight of the edge from the smallest-id neighbour one step nearer. */
  ghost function DistanceTerm(g: Graph, entries: set<string>, k: nat, chunk: string): string -> real {
    v =>
      if v !in Within(g, entries, k) then 0.0
      else
        var d := Distance(g, entries, v, k);
        if d == 0 then EntityCount(g, v, chunk) as real
        else Times(Contribution(g, Layer(g, entries, d - 1), d, v), EntityCount(g, v, chunk))
  }

  lemma {:induction false} DistinctEntriesSum(g: Graph, ids: seq<string>, chunk: string)
    requires Order.NoDuplicates(ids)
    ensures EntryScore(g, ids, chunk) as real == Sum(v => EntityCount(g, v, chunk) as real, SetOf(ids))
  {
    var f := v => EntityCount(g, v, chunk) as real;
    if ids != [] {
      var front, last := ids[..|ids| - 1], ids[|ids| - 1];
      DistinctEntriesSum(g, front, chunk);
      assert ids == front + [last];
      SumRemove(f, SetOf(ids), last);
      assert SetOf(ids) - {last} == SetOf(front);
    }
  }

  lemma NearTermsAgree(g: Graph, entries: set<string>, hops: nat, chunk: string, v: string)
    requires hops > 0 && v in Within(g, entries, hops - 1)
    ensures DistanceTerm(g, entries, hops, chunk)(v) == DistanceTerm(g, entries, hops - 1, chunk)(v)
  {
    hide Times, Contribution, Neighbours, EntityCount;
    WithinGrows(g, entries, hops - 1, hops);
  }

  lemma FarTermsAgree(g: Graph, entries: set<string>, hops: nat, chunk: string, v: string)
    requires hops > 0 && v in Layer(g, entries, hops)
    ensures DistanceTerm(g, entries, hops, chunk)(v) == LayerTerm(g, Layer(g, entries, hops - 1), hops, chunk)(v)
  {
    hide Times, Contribution, Neighbours, EntityCount;
    assert Distance(g, entries, v, hops) == hops;
  }

  /** Closed form: for distinct entries, a chunk's score is the sum over all
      entities within `hops` of `w / (1 + distance)` times their count in it. */
  lemma {:induction false} ScoreByDistance(g: Graph, ids: seq<string>, hops: nat, chunk: string)
    requires Order.NoDuplicates(ids)
    ensures Score(g, ids, hops, chunk) == Sum(DistanceTerm(g, SetOf(ids), hops, chunk), Within(g, SetOf(ids), hops))
    decreases hops
  {
    hide Times, Contribution, Neighbours, EntityCount, DistanceTerm, LayerTerm, Sum, Within, Layer;
    var entries := SetOf(ids);
    var term := DistanceTerm(g, entries, hops, chunk);
    if hops == 0 {
      EntriesByDistance(g, ids, chunk);
    } else {
      ScoreByDistance(g, ids, hops - 1, chunk);
      NextLayer(g, entries, hops);
      var near, far := Within(g, entries, hops - 1), Layer(g, entries, hops);
      NearAndFar(g, entries, hops);
      SumUnion(term, near, far);
      forall v | v in near ensures term(v) == DistanceTerm(g, entries, hops - 1, chunk)(v) {
        NearTermsAgree(g, entries, hops, chunk, v);
      }
      SumCongruent(term, DistanceTerm(g, entries, hops - 1, chunk), near);
      forall v | v in far ensures term(v) == LayerTerm(g, Layer(g, entries, hops - 1), hops, chunk)(v) {
        FarTermsAgree(g, entries, hops, chunk, v);
      }
      SumCongruent(term, LayerTerm(g, Layer(g, entries, hops - 1), hops, chunk), far);
    }
  }

  lemma NearAndFar(g: Graph, entries: set<string>, hops: nat)
    requires hops > 0
    ensures Within(g, entries, hops - 1) !! Layer(g, entries, hops)
  {
  }

  lemma EntriesByDistance(g: Graph, ids: seq<string>, chunk: string)
    requires Order.NoDuplicates(ids)
    ensures Score(g, ids, 0, chunk) == Sum(DistanceTerm(g, SetOf(ids), 0, chunk), Within(g, SetOf(ids), 0))
  {
    hide Times, Contribution, EntityCount, Sum;
    DistinctEntriesSum(g, ids, chunk);
    SumCongruent(v => EntityCount(g, v, chunk) as real, DistanceTerm(g, SetOf(ids), 0, chunk), SetOf(ids));
  }

  lemma OneHopMore(g: Graph, ids: seq<string>, hops: nat, chunk: string)
    ensures Score(g, ids, hops, chunk) <= Score(g, ids, hops + 1, chunk)
  {
    var d := hops + 1;
    var term := LayerTerm(g, Layer(g, SetOf(ids), d - 1), d, chunk);
    forall v
      ensures term(v) >= 0.0
    {
      TermIsNonNegative(g, Layer(g, SetOf(ids), d - 1), d, v, EntityCount(g, v, chunk));
    }
    SumNonNegative(term, Layer(g, SetOf(ids), d));
  }

  /** Raising `max_hops` never lowers a score. */
  lemma {:induction false} ScoresGrow(g: Graph, ids: seq<string>, fewer: nat, more: nat, chunk: string)
    requires fewer <= more
    ensures Score(g, ids, fewer, chunk) <= Score(g, ids, more, chunk)
  {
    hide Score;
    if fewer < more {
      ScoresGrow(g, ids, fewer, more - 1, chunk);
      OneHopMore(g, ids, more - 1, chunk);
    }
  }

  lemma TermIsNonNegative(g: Graph, frontier: set<string>, d: nat, v: string, n: nat)
    ensures Times(Contribution(g, frontier, d, v), n) >= 0.0
  {
  }

  // ----- entry resolution and ranking -----

  /** The ids of the mentions that name an entity, in order of mention. */
  function KnownIds(b: Builder, nameToId: map<string, string>, mentions: seq<string>): (ids: seq<string>)
    ensures forall id :: id in ids <==>
      exists m :: m in mentions && b.lower(m) in nameToId && nameToId[b.lower(m)] == id
  {
    if mentions == [] then []
    else
      var front, last := mentions[..|mentions| - 1], mentions[|mentions| - 1];
      assert mentions == front + [last];
      KnownIds(b, nameToId, front) + if b.lower(last) in nameToId then [nameToId[b.lower(last)]] else []
  }

  /** `resolve_entry_entities`: the known ids of the mentions, each once, in order of first mention. */
  method ResolveEntries(b: Builder, nameToId: map<string, string>, query: string) returns (ids: seq<string>)
    ensures ids == Order.Distinct(KnownIds(b, nameToId, b.mentions(query)))
    ensures Order.NoDuplicates(ids)
    ensures forall id :: id in ids <==>
      exists m :: m in b.mentions(query) && b.lower(m) in nameToId && nameToId[b.lower(m)] == id
  {
    hide KnownIds, Order.Distinct;
    ids := [];
    var mentions := b.mentions(query);
    NoKnownIds(b, nameToId);
    for x := 0 to |mentions|
      invariant ids == Order.Distinct(KnownIds(b, nameToId, mentions[..x]))
    {
      var key := b.lower(mentions[x]);
      KnownIdsNext(b, nameToId, mentions, x);
      if key in nameToId {
        DistinctNext(KnownIds(b, nameToId, mentions[..x]), nameToId[key]);
        if nameToId[key] !in ids {
          ids := ids + [nameToId[key]];
        }
      }
    }
    assert mentions[..|mentions|] == mentions;
    DistinctIsSame(KnownIds(b, nameToId, mentions));
  }

  lemma NoKnownIds(b: Builder, nameToId: map<string, string>)
    ensures Order.Distinct(KnownIds(b, nameToId, [])) == []
  {
  }

  lemma KnownIdsNext(b: Builder, nameToId: map<string, string>, mentions: seq<string>, x: nat)
    requires x < |mentions|
    ensures var key := b.lower(mentions[x]);
      KnownIds(b, nameToId, mentions[..x + 1]) ==
        if key in nameToId then KnownIds(b, nameToId, mentions[..x]) + [nameToId[key]]
          else KnownIds(b, nameToId, mentions[..x])
  {
    assert mentions[..x + 1][..x] == mentions[..x];
  }

  lemma DistinctNext(xs: seq<string>, x: string)
    ensures Order.Distinct(xs + [x]) == if x in Order.Distinct(xs) then Order.Distinct(xs) else Order.Distinct(xs) + [x]
  {
    assert (xs + [x])[..|xs|] == xs;
  }

  lemma DistinctIsSame(xs: seq<string>)
    ensures Order.NoDuplicates(Order.Distinct(xs)) && forall x :: x in Order.Distinct(xs) <==> x in xs
  {
    forall x ensures x in Order.Distinct(xs) <==> x in xs { Order.DistinctMembers(xs, x); }
    Order.DistinctMembers(xs, "");
  }

  predicate Better(a: (string, real), b: (string, real)) {
    a.1 > b.1 || (a.1 == b.1 && Order.StrLe(a.0, b.0))
  }

  lemma BetterIsTotal()
    ensures Order.TotalPreorder(Better)
  {
    forall x, y ensures Better(x, y) || Better(y, x) { Order.StrLeTotal(x.0, y.0); }
    forall x, y, z | Better(x, y) && Better(y, z) ensures Better(x, z) {
      if x.1 == y.1 == z.1 { Order.StrLeTransitive(x.0, y.0, z.0); }
    }
  }

  lemma PrefixHas<T>(xs: seq<T>, n: nat, i: nat)
    requires i < |xs| && n <= |xs|
    ensures i < n ==> xs[i] in xs[..n]
  {
    if i < n { assert xs[..n][i] == xs[i]; }
  }

  /** `chunk_scores.items()`, in no particular order. */
  method ItemsOf(scores: map<string, real>) returns (items: seq<(string, real)>)
    ensures |items| == |scores| && Order.NoDuplicates(items)
    ensures forall p :: p in items <==> p.0 in scores && scores[p.0] == p.1
  {
    items := [];
    var todo := scores.Keys;
    while todo != {}
      invariant todo <= scores.Keys && |items| == |scores| - |todo| && Order.NoDuplicates(items)
      invariant forall p :: p in items <==> p.0 in scores.Keys - todo && scores[p.0] == p.1
    {
      var c :| c in todo;
      assert (c, scores[c]) !in items;
      items := items + [(c, scores[c])];
      todo := todo - {c};
    }
  }

  /** `rank_chunks`: the `topK` best, best first; nothing left out beats anything kept. */
  method RankChunks(scores: map<string, real>, topK: nat) returns (ranked: seq<(string, real)>)
    ensures |ranked| == if |scores| < topK then |scores| else topK
    ensures |scores| <= topK ==> forall c :: c in scores ==> (c, scores[c]) in ranked
    ensures Order.Sorted(ranked, Better) && Order.NoDuplicates(ranked)
    ensures forall p :: p in ranked ==> p.0 in scores && scores[p.0] == p.1
    ensures forall c, p :: c in scores && (c, scores[c]) !in ranked && p in ranked ==> Better(p, (c, scores[c]))
    ensures forall x, y :: 0 <= x < y < |ranked| ==> Ahead(ranked[x], ranked[y])
    ensures forall c, x :: c in scores && (c, scores[c]) !in ranked && 0 <= x < |ranked| ==>
      Ahead(ranked[x], (c, scores[c]))
  {
    hide Order.SortBy, Better, Ahead;
    var items := ItemsOf(scores);
    BetterIsTotal();
    Order.SortByCorrect(items, Better);
    Order.SortedNoDuplicates(items, Better);
    var all := Order.SortBy(items, Better);
    ranked := if |all| < topK then all else all[..topK];
    forall c, p | c in scores && (c, scores[c]) !in ranked && p in ranked ensures Better(p, (c, scores[c])) {
      assert (c, scores[c]) in items;
      LeftOutIsWorse(all, |ranked|, p, (c, scores[c]));
    }
    RankedAhead(scores, ranked);
  }

  /** A higher score, or the same score and the alphabetically earlier id. */
  predicate Ahead(a: (string, real), b: (string, real)) {
    a.1 > b.1 || (a.1 == b.1 && Order.Earlier(a.0, b.0))
  }

  lemma RankedAhead(scores: map<string, real>, ranked: seq<(string, real)>)
    requires Order.Sorted(ranked, Better) && Order.NoDuplicates(ranked)
    requires forall c, p :: c in scores && (c, scores[c]) !in ranked && p in ranked ==> Better(p, (c, scores[c]))
    ensures forall x, y :: 0 <= x < y < |ranked| ==> Ahead(ranked[x], ranked[y])
    ensures forall c, x :: c in scores && (c, scores[c]) !in ranked && 0 <= x < |ranked| ==>
      Ahead(ranked[x], (c, scores[c]))
  {
    hide Better, Ahead;
    forall x, y | 0 <= x < y < |ranked| ensures Ahead(ranked[x], ranked[y]) { BetterMeans(ranked[x], ranked[y]); }
    forall c, x | c in scores && (c, scores[c]) !in ranked && 0 <= x < |ranked|
      ensures Ahead(ranked[x], (c, scores[c]))
    {
      assert ranked[x] in ranked;
      BetterMeans(ranked[x], (c, scores[c]));
    }
  }

  /** Of two different entries the better has the higher score, or the same score and the earlier id. */
  lemma BetterMeans(a: (string, real), b: (string, real))
    requires a != b
    ensures Better(a, b) <==> Ahead(a, b)
  {
    hide Order.Earlier, Order.StrLe;
    Order.StrLeIsEarlier(a.0, b.0);
  }

  lemma LeftOutIsWorse(all: seq<(string, real)>, n: nat, kept: (string, real), out: (string, real))
    requires n <= |all| && Order.Sorted(all, Better) && kept in all[..n] && out in all && out !in all[..n]
    ensures Better(kept, out)
  {
    hide Better;
    var i :| 0 <= i < |all| && all[i] == out;
    var j :| 0 <= j < n && all[..n][j] == kept;
    PrefixHas(all, n, i);
  }

  // ----- the graphs the builders make are fit for traversal -----

  lemma BuiltIsTraversable(b: Builder, chunks: seq<Chunk>, g: Graph, nameToId: map<string, string>)
    requires Built(b, chunks, g, nameToId)
    ensures WellFormed(g) && Slotted(g)
    ensures forall k :: k in nameToId ==> nameToId[k] in g.records
  {
    hide Mentioning, SlotOf, EdgeIs;
    forall k | k in nameToId ensures nameToId[k] in g.records {
      var spans: string -> seq<Span> := x => Mentioning(b, chunks, {x});
      assert NameIs(b, g.records, nameToId, k, spans(k));
    }
    forall s | s in g.edges ensures SlotOf(g.edges[s].subject, g.edges[s].obj) == s {
      BuiltSlot(b, chunks, g, nameToId, s);
    }
    forall id | id in g.records ensures g.records[id].id == id { assert RecordIs(b, g.records, nameToId, id); }
  }

  lemma BuiltSlot(b: Builder, chunks: seq<Chunk>, g: Graph, nameToId: map<string, string>, s: Slot)
    requires Built(b, chunks, g, nameToId) && s in g.edges
    ensures SlotOf(g.edges[s].subject, g.edges[s].obj) == s
    ensures Order.StrLe(g.edges[s].subject, g.edges[s].obj)
  {
    hide Mentioning, SlotOf;
    assert RecordIs(b, g.records, nameToId, s.0) && RecordIs(b, g.records, nameToId, s.1);
    var k, m := b.lower(g.records[s.0].name), b.lower(g.records[s.1].name);
    var pairs: (string, string) -> seq<Span> := (x, y) => Mentioning(b, chunks, {x, y});
    assert EdgeIs(g, nameToId[k], nameToId[m], pairs(k, m));
    SlotAscends(nameToId[k], nameToId[m]);
  }

  lemma SlotAscends(a: string, c: string)
    ensures Order.StrLe(SlotOf(a, c).0, SlotOf(a, c).1)
  {
    Order.StrLeTotal(a, c);
  }
}
