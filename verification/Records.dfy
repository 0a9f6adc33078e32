/** `EntityGraph.from_records`: the traversal graph of already resolved entities
    and relations, with parallel edges merged. */
module Records {
  import opened Schemas
  import opened Grouping
  import opened Provenance
  import opened EntityGraphs
  import opened Construction
  import Order

  function SlotKeys(): Relation -> Option<Slot> { (r: Relation) => Some(SlotOf(r.subject, r.obj)) }

  function Weights(): Relation -> real { (r: Relation) => r.weight as real }

  function RelationSpans(group: seq<Relation>): seq<seq<Span>> {
    seq(|group|, i requires 0 <= i < |group| => group[i].provenance)
  }

  predicate KindLe(a: Relation, b: Relation) { Order.StrLe(a.kind, b.kind) }

  lemma KindLeIsTotal()
    ensures Order.TotalPreorder(KindLe)
  {
    forall x, y ensures KindLe(x, y) || KindLe(y, x) { Order.StrLeTotal(x.kind, y.kind); }
    forall x, y, z | KindLe(x, y) && KindLe(y, z)
      ensures KindLe(x, z)
    {
      Order.StrLeTransitive(x.kind, y.kind, z.kind);
    }
  }

  /** `first` is the earliest relation of least kind. */
  ghost predicate FirstByKind(group: seq<Relation>, first: Relation) {
    exists at :: 0 <= at < |group| && group[at] == first
      && (forall k :: 0 <= k < at ==> !KindLe(group[k], first))
      && (forall k :: 0 <= k < |group| ==> KindLe(first, group[k]))
  }

  /** A lone relation is kept as it is; parallel ones become one edge with the
      ends and kind of the first by kind, all their weight and all their spans. */
  ghost predicate Merged(group: seq<Relation>, e: Relation) {
    if |group| == 1 then e == group[0]
    else
      && e.weight as real == SumOf(Weights(), group)
      && Arrangement(UnionOf(RelationSpans(group)), e.provenance)
      && exists first ::
        FirstByKind(group, first) && (e.subject, e.obj, e.kind) == (first.subject, first.obj, first.kind)
  }

  function LastById(entities: seq<Entity>): map<string, Entity> {
    if entities == [] then map[]
    else var last := entities[|entities| - 1]; LastById(entities[..|entities| - 1])[last.id := last]
  }

  function NameIndex(lower: string -> string, entities: seq<Entity>): map<string, string> {
    if entities == [] then map[]
    else var last := entities[|entities| - 1]; NameIndex(lower, entities[..|entities| - 1])[lower(last.name) := last.id]
  }

  ghost predicate Assembled(entities: seq<Entity>, relations: seq<Relation>, g: Graph) {
    var groups := GroupBy(SlotKeys(), relations);
    && g.records == LastById(entities)
    && (forall s :: s in g.edges <==> s in groups.of)
    && (forall s :: s in g.edges ==> Merged(groups.of[s], g.edges[s]))
  }

  /** `sum(r.weight for r in ordered)` */
  method SumWeights(ordered: seq<Relation>) returns (total: nat)
    ensures total as real == SumOf(Weights(), ordered)
  {
    total := 0;
    for i := 0 to |ordered|
      invariant total as real == SumOf(Weights(), ordered[..i])
    {
      assert ordered[..i + 1][..i] == ordered[..i];
      total := total + ordered[i].weight;
    }
    assert ordered[..|ordered|] == ordered;
  }

  lemma SameUnion(a: seq<Relation>, b: seq<Relation>)
    requires forall r :: r in a <==> r in b
    ensures UnionOf(RelationSpans(a)) == UnionOf(RelationSpans(b))
  {
    forall sp ensures sp in UnionOf(RelationSpans(a)) <==> sp in UnionOf(RelationSpans(b)) {
      SpansOfMembers(a, sp);
      SpansOfMembers(b, sp);
    }
  }

  lemma SpansOfMembers(group: seq<Relation>, sp: Span)
    ensures sp in UnionOf(RelationSpans(group)) <==> exists r :: r in group && sp in r.provenance
  {
    var lists := RelationSpans(group);
    if i :| 0 <= i < |lists| && sp in lists[i] { assert group[i] in group && sp in group[i].provenance; }
    if r :| r in group && sp in r.provenance {
      var i :| 0 <= i < |group| && group[i] == r;
      assert sp in lists[i];
    }
  }

  method MergeParallel(group: seq<Relation>) returns (e: Relation)
    requires group != []
    ensures Merged(group, e)
  {
    hide Arrangement, SumOf, KindLe, Order.SortBy;
    if |group| == 1 { return group[0]; }
    KindLeIsTotal();
    var ordered := Order.SortBy(group, KindLe);
    Order.SortByCorrect(group, KindLe);
    SumOfPermuted(Weights(), ordered, group);
    SameUnion(ordered, group);
    var provenance := Arrange(UnionOf(RelationSpans(ordered)));
    var weight := SumWeights(ordered);
    ghost var at := Order.HeadIsFirst(group, KindLe);
    assert FirstByKind(group, ordered[0]) by { assert group[at] == ordered[0]; }
    e := ordered[0].(weight := weight, provenance := provenance);
  }

  method AddEntities(eg: EntityGraph, lower: string -> string, entities: seq<Entity>)
    requires eg.graph == Graph(map[], map[]) && eg.nameToId == map[]
    modifies eg
    ensures eg.graph == Graph(LastById(entities), map[]) && eg.nameToId == NameIndex(lower, entities)
  {
    for i := 0 to |entities|
      invariant eg.graph == Graph(LastById(entities[..i]), map[]) && eg.nameToId == NameIndex(lower, entities[..i])
    {
      assert entities[..i + 1][..i] == entities[..i];
      var e := entities[i];
      eg.graph := eg.graph.(records := eg.graph.records[e.id := e]);
      eg.nameToId := eg.nameToId[lower(e.name) := e.id];
    }
    assert entities[..|entities|] == entities;
  }

  method GroupByPair(relations: seq<Relation>) returns (groups: Groups<Slot, Relation>)
    ensures groups == GroupBy(SlotKeys(), relations)
  {
    groups := Groups([], map[]);
    for i := 0 to |relations|
      invariant groups == GroupBy(SlotKeys(), relations[..i])
    {
      GroupNext(SlotKeys(), relations, i);
      groups := Put(groups, SlotOf(relations[i].subject, relations[i].obj), relations[i]);
    }
    assert relations[..|relations|] == relations;
  }

  method FromRecords(lower: string -> string, entities: seq<Entity>, relations: seq<Relation>) returns (eg: EntityGraph)
    ensures fresh(eg)
    ensures Assembled(entities, relations, eg.graph) && eg.nameToId == NameIndex(lower, entities)
  {
    hide GroupBy, Merged, SlotOf, Put;
    eg := new EntityGraph();
    AddEntities(eg, lower, entities);
    var groups := GroupByPair(relations);
    GroupsAreTidy(SlotKeys(), relations);
    for x := 0 to |groups.keys|
      invariant eg.graph.records == LastById(entities) && eg.nameToId == NameIndex(lower, entities)
      invariant forall s :: s in eg.graph.edges <==> s in groups.keys[..x]
      invariant forall s :: s in eg.graph.edges ==> s in groups.of && Merged(groups.of[s], eg.graph.edges[s])
    {
      var s := groups.keys[x];
      assert s in groups.of;
      var e := MergeParallel(groups.of[s]);
      eg.graph := eg.graph.(edges := eg.graph.edges[s := e]);
    }
  }

  // ----- what the assembled graph keeps -----

  lemma {:induction false} LastByIdKeys(entities: seq<Entity>, id: string)
    ensures id in LastById(entities) <==> exists e :: e in entities && e.id == id
    ensures id in LastById(entities) ==> LastById(entities)[id].id == id && LastById(entities)[id] in entities
  {
    if entities != [] {
      var front := entities[..|entities| - 1];
      LastByIdKeys(front, id);
      assert entities == front + [entities[|entities| - 1]];
    }
  }

  ghost predicate EndpointsKnown(entities: seq<Entity>, r: Relation) {
    (exists e :: e in entities && e.id == r.subject) && (exists e :: e in entities && e.id == r.obj)
  }

  /** The group of a slot is exactly the relations between its two ends. */
  lemma SlotGroup(relations: seq<Relation>, s: Slot)
    ensures s in GroupBy(SlotKeys(), relations).of <==> exists r :: r in relations && SlotOf(r.subject, r.obj) == s
    ensures s in GroupBy(SlotKeys(), relations).of ==> forall r :: r in GroupBy(SlotKeys(), relations).of[s] <==>
              r in relations && SlotOf(r.subject, r.obj) == s
    ensures s in GroupBy(SlotKeys(), relations).of ==> GroupBy(SlotKeys(), relations).of[s] != []
  {
    hide GroupBy, SlotOf;
    var g := GroupBy(SlotKeys(), relations);
    GroupsAreTidy(SlotKeys(), relations);
    forall r ensures s in g.of && r in g.of[s] <==> r in relations && SlotOf(r.subject, r.obj) == s {
      GroupMembers(SlotKeys(), relations, s, r);
    }
    if s in g.of { assert g.of[s][0] in g.of[s]; }
  }

  lemma MergedEnds(group: seq<Relation>, e: Relation) returns (r: Relation)
    requires group != [] && Merged(group, e)
    ensures r in group && r.subject == e.subject && r.obj == e.obj
  {
    if |group| == 1 {
      r := e;
    } else {
      r :| FirstByKind(group, r) && (e.subject, e.obj, e.kind) == (r.subject, r.obj, r.kind);
    }
  }

  lemma EdgeEnds(entities: seq<Entity>, relations: seq<Relation>, g: Graph, s: Slot) returns (r: Relation)
    requires Assembled(entities, relations, g) && s in g.edges
    ensures r in relations && r.subject == g.edges[s].subject && r.obj == g.edges[s].obj
    ensures SlotOf(r.subject, r.obj) == s
  {
    hide GroupBy, SlotOf, Merged, LastById;
    SlotGroup(relations, s);
    r := MergedEnds(GroupBy(SlotKeys(), relations).of[s], g.edges[s]);
  }

  lemma SlotEnds(a: string, b: string)
    ensures SlotOf(a, b) == (a, b) || SlotOf(a, b) == (b, a)
    ensures SlotOf(SlotOf(a, b).0, SlotOf(a, b).1) == SlotOf(a, b)
  {
    SlotIsUnordered(a, b);
  }

  /** Every node the traversal can meet has a record exactly when every relation
      joins known entities. */
  lemma AssembledIsWellFormedIff(entities: seq<Entity>, relations: seq<Relation>, g: Graph)
    requires Assembled(entities, relations, g)
    ensures WellFormed(g) <==> forall r :: r in relations ==> EndpointsKnown(entities, r)
    ensures forall s :: s in g.edges ==> SlotOf(s.0, s.1) == s
  {
    hide GroupBy, SlotOf, Merged, LastById;
    forall s | s in g.edges
      ensures SlotOf(g.edges[s].subject, g.edges[s].obj) == s && SlotOf(s.0, s.1) == s
    {
      var r := EdgeEnds(entities, relations, g, s);
      SlotEnds(r.subject, r.obj);
    }
    forall id ensures id in g.records <==> exists e :: e in entities && e.id == id { LastByIdKeys(entities, id); }
    forall id | id in g.records ensures g.records[id].id == id { LastByIdKeys(entities, id); }
    forall r | r in relations
      ensures var s := SlotOf(r.subject, r.obj);
        s in g.edges && (EndpointsKnown(entities, r) <==> s.0 in g.records && s.1 in g.records)
    {
      SlotGroup(relations, SlotOf(r.subject, r.obj));
      SlotEnds(r.subject, r.obj);
    }
    forall s | s in g.edges ensures exists r :: r in relations && SlotOf(r.subject, r.obj) == s {
      var r := EdgeEnds(entities, relations, g, s);
    }
  }

  /** Per unordered pair, the edge carries all the weight and exactly the spans of its relations. */
  lemma PairIsKept(entities: seq<Entity>, relations: seq<Relation>, g: Graph, s: Slot)
    requires Assembled(entities, relations, g) && s in g.edges
    ensures g.edges[s].weight as real == SumOf(Weights(), Filter(Has(SlotKeys(), s), relations))
    ensures forall sp :: sp in g.edges[s].provenance <==>
              exists r :: r in relations && SlotOf(r.subject, r.obj) == s && sp in r.provenance
  {
    hide GroupBy, SlotOf, LastById, Filter;
    SlotGroup(relations, s);
    GroupIsFilter(SlotKeys(), relations, s);
    var group := GroupBy(SlotKeys(), relations).of[s];
    if |group| == 1 { assert group[..0] == []; }
    assert SumOf(Weights(), group) == g.edges[s].weight as real;
    forall sp ensures sp in g.edges[s].provenance <==> exists r :: r in group && sp in r.provenance {
      SpansOfMembers(group, sp);
    }
  }

  function EdgeWeights(edges: map<Slot, Relation>, slots: seq<Slot>): nat
    requires forall s :: s in slots ==> s in edges
  {
    if slots == [] then 0 else EdgeWeights(edges, slots[..|slots| - 1]) + edges[slots[|slots| - 1]].weight
  }

  lemma {:induction false} EdgeWeightsAreGroupTotals(g: Graph, groups: Groups<Slot, Relation>, slots: seq<Slot>)
    requires forall s :: s in slots ==> s in g.edges && s in groups.of
    requires forall s :: s in slots ==> g.edges[s].weight as real == SumOf(Weights(), groups.of[s])
    ensures EdgeWeights(g.edges, slots) as real == TotalOf(Weights(), groups.of, slots)
  {
    if slots != [] { EdgeWeightsAreGroupTotals(g, groups, slots[..|slots| - 1]); }
  }

  /** Over the whole graph no weight appears or disappears. */
  lemma TotalWeightIsKept(entities: seq<Entity>, relations: seq<Relation>, g: Graph) returns (slots: seq<Slot>)
    requires Assembled(entities, relations, g)
    ensures Order.NoDuplicates(slots) && forall s :: s in slots <==> s in g.edges
    ensures EdgeWeights(g.edges, slots) as real == SumOf(Weights(), relations)
  {
    hide GroupBy, SlotOf, LastById, Filter, Merged, TotalOf, SumOf;
    var groups := GroupBy(SlotKeys(), relations);
    NothingLost(Weights(), SlotKeys(), relations);
    AllKeyed(relations);
    slots := groups.keys;
    forall s | s in slots ensures g.edges[s].weight as real == SumOf(Weights(), groups.of[s]) {
      PairIsKept(entities, relations, g, s);
      GroupIsFilter(SlotKeys(), relations, s);
    }
    EdgeWeightsAreGroupTotals(g, groups, slots);
  }

  lemma AllKeyed(relations: seq<Relation>)
    ensures SumOf(Weights(), Filter(Unkeyed(SlotKeys()), relations)) == 0.0
  {
    var none := Filter(Unkeyed(SlotKeys()), relations);
    if none != [] { FilterMembers(Unkeyed(SlotKeys()), relations, none[0]); }
  }
}
