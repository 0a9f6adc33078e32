/** The retrieval graph: entity records as nodes and one merged relation per
    unordered pair, with the two ways of filling it. */
module EntityGraphs {
  import opened Schemas
  import opened Chunking
  import Order

  datatype Entity = Entity(id: string, name: string, kind: string, provenance: seq<Span>)
  datatype Relation = Relation(subject: string, obj: string, kind: string, weight: nat, provenance: seq<Span>)

  /** An edge slot of `networkx.Graph`: the two ends in ascending order. */
  type Slot = (string, string)

  datatype Graph = Graph(records: map<string, Entity>, edges: map<Slot, Relation>)

  function SlotOf(a: string, b: string): Slot {
    if Order.StrLe(a, b) then (a, b) else (b, a)
  }

  lemma SlotIsUnordered(a: string, b: string)
    ensures SlotOf(a, b) == SlotOf(b, a) && (SlotOf(a, b) == (a, b) || SlotOf(a, b) == (b, a))
    ensures SlotOf(SlotOf(a, b).0, SlotOf(a, b).1) == SlotOf(a, b)
    ensures forall c, d :: SlotOf(a, b) == SlotOf(c, d) <==> (a == c && b == d) || (a == d && b == c)
  {
    Order.StrLeTotal(a, b);
    if Order.StrLe(a, b) && Order.StrLe(b, a) { Order.StrLeAntisymmetric(a, b); }
  }

  predicate Adjacent(g: Graph, a: string, b: string) { SlotOf(a, b) in g.edges }

  /** Every edge record sits in the slot of its own ends, and both ends have records. */
  ghost predicate WellFormed(g: Graph) {
    && (forall s :: s in g.edges ==> SlotOf(g.edges[s].subject, g.edges[s].obj) == s)
    && (forall s :: s in g.edges ==> s.0 in g.records && s.1 in g.records)
    && (forall id :: id in g.records ==> g.records[id].id == id)
  }

  /** What the G1 builder is given: case folding, the id hash (injective), the mention extractor. */
  datatype Builder = Builder(lower: string -> string, id: string -> string, mentions: string -> seq<string>)

  ghost predicate InjectiveId(b: Builder) { forall m, n :: b.id(m) == b.id(n) ==> m == n }

  function SpanOf(c: Chunk): Span { Span(c.id, c.start, c.end) }

  function Lowered(b: Builder, mentions: seq<string>): set<string> { set m | m in mentions :: b.lower(m) }

  lemma LoweredAppend(b: Builder, mentions: seq<string>, x: nat)
    requires x < |mentions|
    ensures Lowered(b, mentions[..x + 1]) == Lowered(b, mentions[..x]) + {b.lower(mentions[x])}
  {
    assert mentions[..x + 1] == mentions[..x] + [mentions[x]];
  }

  function NamesIn(b: Builder, c: Chunk): set<string> { Lowered(b, b.mentions(c.text)) }

  /** The spans of the chunks that mention every name of `names`, in chunk order. */
  function Mentioning(b: Builder, chunks: seq<Chunk>, names: set<string>): (spans: seq<Span>) {
    if chunks == [] then []
    else
      var last := chunks[|chunks| - 1];
      Mentioning(b, chunks[..|chunks| - 1], names) + if names <= NamesIn(b, last) then [SpanOf(last)] else []
  }

  lemma {:induction false} MentioningMembers(b: Builder, chunks: seq<Chunk>, names: set<string>, sp: Span)
    ensures sp in Mentioning(b, chunks, names) <==> exists c :: c in chunks && names <= NamesIn(b, c) && SpanOf(c) == sp
  {
    if chunks != [] {
      var front, last := chunks[..|chunks| - 1], chunks[|chunks| - 1];
      MentioningMembers(b, front, names, sp);
      assert chunks == front + [last];
    }
  }

  // ----- the state the G1 builder keeps, told by counting -----

  predicate NameIs(b: Builder, records: map<string, Entity>, nameToId: map<string, string>, k: string, ss: seq<Span>) {
    if ss == [] then k !in nameToId
    else
      && k in nameToId && nameToId[k] in records
      && var e := records[nameToId[k]]; b.lower(e.name) == k && e.provenance == ss
  }

  predicate RecordIs(b: Builder, records: map<string, Entity>, nameToId: map<string, string>, id: string)
    requires id in records
  {
    var e := records[id];
    e.id == id == b.id(e.name) && b.lower(e.name) in nameToId && nameToId[b.lower(e.name)] == id
  }

  /** One record per name met so far, holding exactly the spans `spans` gives that name. */
  ghost predicate EntitiesAre(b: Builder, records: map<string, Entity>, nameToId: map<string, string>,
                              spans: string -> seq<Span>) {
    && (forall k :: NameIs(b, records, nameToId, k, spans(k)))
    && (forall id :: id in records ==> RecordIs(b, records, nameToId, id))
  }

  /** Different names have different ids. */
  lemma IdsFollowNames(b: Builder, records: map<string, Entity>, nameToId: map<string, string>,
                       spans: string -> seq<Span>, k: string, m: string)
    requires EntitiesAre(b, records, nameToId, spans)
    requires k in nameToId && m in nameToId && nameToId[k] == nameToId[m]
    ensures k == m
  {
    assert NameIs(b, records, nameToId, k, spans(k)) && NameIs(b, records, nameToId, m, spans(m));
  }

  /** `spans` once `sp` has been recorded for `key`. */
  ghost function WithSpan(spans: string -> seq<Span>, key: string, sp: Span): string -> seq<Span> {
    k => if k == key && sp !in spans(k) then spans(k) + [sp] else spans(k)
  }

  lemma NewName(b: Builder, records: map<string, Entity>, nameToId: map<string, string>, spans: string -> seq<Span>,
                name: string, sp: Span)
    requires EntitiesAre(b, records, nameToId, spans) && InjectiveId(b) && b.lower(name) !in nameToId
    ensures b.id(name) !in records
    ensures EntitiesAre(b, records[b.id(name) := Entity(b.id(name), name, "OTHER", [sp])],
                        nameToId[b.lower(name) := b.id(name)], WithSpan(spans, b.lower(name), sp))
  {
    var key, id := b.lower(name), b.id(name);
    var records', names', spans' := records[id := Entity(id, name, "OTHER", [sp])], nameToId[key := id],
      WithSpan(spans, key, sp);
    forall x | x in records ensures x != id { assert RecordIs(b, records, nameToId, x); }
    forall k ensures NameIs(b, records', names', k, spans'(k)) { assert NameIs(b, records, nameToId, k, spans(k)); }
    forall x | x in records' ensures RecordIs(b, records', names', x) {
      if x != id { assert RecordIs(b, records, nameToId, x); }
    }
  }

  lemma KnownName(b: Builder, records: map<string, Entity>, nameToId: map<string, string>, spans: string -> seq<Span>,
                  key: string, sp: Span)
    requires EntitiesAre(b, records, nameToId, spans) && key in nameToId
    ensures nameToId[key] in records && records[nameToId[key]].provenance == spans(key)
    ensures EntitiesAre(b,
              if sp in spans(key) then records
              else records[nameToId[key] := records[nameToId[key]].(provenance := spans(key) + [sp])],
              nameToId, WithSpan(spans, key, sp))
  {
    assert NameIs(b, records, nameToId, key, spans(key));
    var id := nameToId[key];
    var records' := if sp in spans(key) then records else records[id := records[id].(provenance := spans(key) + [sp])];
    var spans' := WithSpan(spans, key, sp);
    forall k ensures NameIs(b, records', nameToId, k, spans'(k)) {
      assert NameIs(b, records, nameToId, k, spans(k));
      if k in nameToId && nameToId[k] == id { IdsFollowNames(b, records, nameToId, spans, k, key); }
    }
    forall x | x in records' ensures RecordIs(b, records', nameToId, x) { assert RecordIs(b, records, nameToId, x); }
  }

  // ----- the edges, told by counting -----

  predicate EdgeIs(g: Graph, a: string, c: string, ss: seq<Span>) {
    if ss == [] then !Adjacent(g, a, c)
    else
      && Adjacent(g, a, c)
      && var r := g.edges[SlotOf(a, c)];
         (r.subject, r.obj) == SlotOf(a, c) && r.kind == "CO_OCCURS" && r.weight == |ss| && r.provenance == ss
  }

  predicate RelationLe(a: Relation, b: Relation) {
    if a.subject == b.subject then Order.StrLe(a.obj, b.obj) else Order.StrLe(a.subject, b.subject)
  }

  lemma RelationLeIsTotal()
    ensures Order.TotalPreorder(RelationLe)
  {
    forall x, y ensures RelationLe(x, y) || RelationLe(y, x) {
      Order.StrLeTotal(x.subject, y.subject);
      Order.StrLeTotal(x.obj, y.obj);
    }
    forall x, y, z | RelationLe(x, y) && RelationLe(y, z) ensures RelationLe(x, z) { RelationLeTransitive(x, y, z); }
  }

  lemma RelationLeTransitive(x: Relation, y: Relation, z: Relation)
    requires RelationLe(x, y) && RelationLe(y, z)
    ensures RelationLe(x, z)
  {
    if x.subject == y.subject && y.subject == z.subject {
      Order.StrLeTransitive(x.obj, y.obj, z.obj);
    } else if x.subject != y.subject && y.subject != z.subject {
      Order.StrLeTransitive(x.subject, y.subject, z.subject);
      if x.subject == z.subject { Order.StrLeAntisymmetric(x.subject, y.subject); }
    }
  }

  /** `r` is the record of some edge with end `id`. */
  ghost predicate Touches(g: Graph, id: string, r: Relation) {
    exists s :: s in g.edges && (s.0 == id || s.1 == id) && g.edges[s] == r
  }

  class EntityGraph {
    var graph: Graph
    var nameToId: map<string, string>

    constructor ()
      ensures graph == Graph(map[], map[]) && nameToId == map[]
    {
      graph := Graph(map[], map[]);
      nameToId := map[];
    }

    /** `upsert_entity` */
    method UpsertEntity(b: Builder, name: string, chunk: Chunk, ghost spans: string -> seq<Span>) returns (id: string)
      requires EntitiesAre(b, graph.records, nameToId, spans) && InjectiveId(b)
      modifies this
      ensures graph.edges == old(graph.edges)
      ensures nameToId.Keys == old(nameToId.Keys) + {b.lower(name)}
      ensures forall k :: k in old(nameToId) ==> nameToId[k] == old(nameToId)[k]
      ensures id == nameToId[b.lower(name)]
      ensures graph.records.Keys == old(graph.records.Keys) + {id}
      ensures b.lower(name) !in old(nameToId) ==> id !in old(graph.records)
      ensures EntitiesAre(b, graph.records, nameToId, WithSpan(spans, b.lower(name), SpanOf(chunk)))
    {
      hide EntitiesAre;
      var key := b.lower(name);
      var span := SpanOf(chunk);
      if key !in nameToId {
        NewName(b, graph.records, nameToId, spans, name, span);
        id := b.id(name);
        nameToId := nameToId[key := id];
        graph := graph.(records := graph.records[id := Entity(id, name, "OTHER", [span])]);
      } else {
        KnownName(b, graph.records, nameToId, spans, key, span);
        id := nameToId[key];
        var existing := graph.records[id];
        if span !in existing.provenance {
          var updated := existing.(provenance := existing.provenance + [span]);
          graph := graph.(records := graph.records[id := updated]);
        }
      }
    }

    /** `neighbor_relations`: every edge touching `id`, in `(subject, object)` order. */
    method NeighborRelations(id: string) returns (relations: seq<Relation>)
      ensures forall r :: r in relations <==> Touches(graph, id, r)
      ensures Order.Sorted(relations, RelationLe)
    {
      hide Order.SortBy;
      relations := [];
      var todo := set s | s in graph.edges && (s.0 == id || s.1 == id);
      ghost var all := todo;
      while todo != {}
        invariant todo <= all
        invariant forall r :: r in relations <==> exists s :: s in all - todo && graph.edges[s] == r
      {
        var s :| s in todo;
        ghost var was := relations;
        relations := relations + [graph.edges[s]];
        todo := todo - {s};
        forall r ensures r in relations <==> exists x :: x in all - todo && graph.edges[x] == r {
          if r == graph.edges[s] { assert s in all - todo; }
          if r in was {
            var x :| x in all - (todo + {s}) && graph.edges[x] == r;
            assert x in all - todo;
          }
        }
      }
      RelationLeIsTotal();
      Order.SortByCorrect(relations, RelationLe);
      relations := Order.SortBy(relations, RelationLe);
    }

    /** `upsert_relation`: raises on a self-relation, otherwise records one more observation of the pair. */
    method UpsertRelation(a: string, c: string, chunk: Chunk, ghost ss: seq<Span>) returns (r: Result<()>)
      requires EdgeIs(graph, a, c, ss)
      modifies this
      ensures r.Raised? <==> a == c
      ensures nameToId == old(nameToId) && graph.records == old(graph.records)
      ensures r.Raised? ==> graph == old(graph)
      ensures r.Ok? ==> EdgeIs(graph, a, c, if SpanOf(chunk) in ss then ss else ss + [SpanOf(chunk)])
      ensures r.Ok? ==> graph.edges.Keys == old(graph.edges.Keys) + {SlotOf(a, c)}
      ensures forall s :: s in old(graph.edges) && s != SlotOf(a, c) ==> graph.edges[s] == old(graph.edges)[s]
    {
      if a == c { return Raised; }
      var slot := SlotOf(a, c);
      var span := SpanOf(chunk);
      if slot !in graph.edges {
        graph := graph.(edges := graph.edges[slot := Relation(slot.0, slot.1, "CO_OCCURS", 1, [span])]);
      } else {
        var existing := graph.edges[slot];
        if span !in existing.provenance {
          var updated := existing.(provenance := existing.provenance + [span], weight := existing.weight + 1);
          graph := graph.(edges := graph.edges[slot := updated]);
        }
      }
      return Ok(());
    }
  }

  /** One relation per pair of different names, holding exactly the spans `pairs` gives that pair. */
  ghost predicate EdgesAre(g: Graph, nameToId: map<string, string>, pairs: (string, string) -> seq<Span>) {
    && (forall k, m :: k in nameToId && m in nameToId && k != m ==> EdgeIs(g, nameToId[k], nameToId[m], pairs(k, m)))
    && (forall s :: s in g.edges ==> s.0 in g.records && s.1 in g.records && s.0 != s.1 && SlotOf(s.0, s.1) == s)
  }

  // ----- one chunk at a time -----

  /** What the chunks before the current one give a name, plus the current chunk once the name is `done`. */
  ghost function NameSpans(b: Builder, before: seq<Chunk>, c: Chunk, done: set<string>): string -> seq<Span> {
    k => Mentioning(b, before, {k}) + if k in done then [SpanOf(c)] else []
  }

  ghost function PairSpans(b: Builder, before: seq<Chunk>, c: Chunk,
                           done: set<set<string>>): (string, string) -> seq<Span> {
    (k, m) => Mentioning(b, before, {k, m}) + if {k, m} in done then [SpanOf(c)] else []
  }

  ghost predicate NewSpan(before: seq<Chunk>, c: Chunk) {
    forall d :: d in before ==> SpanOf(d) != SpanOf(c)
  }

  lemma SameSpansSameEntities(b: Builder, records: map<string, Entity>, nameToId: map<string, string>,
                              f: string -> seq<Span>, g: string -> seq<Span>)
    requires EntitiesAre(b, records, nameToId, f) && forall k :: f(k) == g(k)
    ensures EntitiesAre(b, records, nameToId, g)
  {
    forall k ensures NameIs(b, records, nameToId, k, g(k)) { assert NameIs(b, records, nameToId, k, f(k)); }
  }

  lemma NextName(b: Builder, before: seq<Chunk>, c: Chunk, done: set<string>, key: string, k: string)
    requires NewSpan(before, c)
    ensures WithSpan(NameSpans(b, before, c, done), key, SpanOf(c))(k) == NameSpans(b, before, c, done + {key})(k)
  {
    MentioningMembers(b, before, {k}, SpanOf(c));
  }

  lemma UnknownNameUnmentioned(b: Builder, before: seq<Chunk>, key: string, m: string)
    requires Mentioning(b, before, {key}) == []
    ensures Mentioning(b, before, {key, m}) == [] && Mentioning(b, before, {m, key}) == []
  {
    assert {key, m} == {m, key};
    if Mentioning(b, before, {key, m}) != [] {
      var sp := Mentioning(b, before, {key, m})[0];
      MentioningMembers(b, before, {key, m}, sp);
      MentioningMembers(b, before, {key}, sp);
    }
  }

  /** Adding a name leaves the edges as they were: no edge can touch it yet. */
  lemma NewNameHasNoEdges(b: Builder, before: seq<Chunk>, g: Graph, nameToId: map<string, string>, g': Graph,
                          nameToId': map<string, string>, key: string, pairs: (string, string) -> seq<Span>)
    requires EdgesAre(g, nameToId, pairs) && g'.edges == g.edges
    requires nameToId'.Keys == nameToId.Keys + {key} && forall k :: k in nameToId ==> nameToId'[k] == nameToId[k]
    requires g'.records.Keys == g.records.Keys + {nameToId'[key]}
    requires key !in nameToId ==> nameToId'[key] !in g.records && forall m :: pairs(key, m) == [] && pairs(m, key) == []
    ensures EdgesAre(g', nameToId', pairs)
  {
    forall k, m | k in nameToId' && m in nameToId' && k != m
      ensures EdgeIs(g', nameToId'[k], nameToId'[m], pairs(k, m))
    {
      if k in nameToId && m in nameToId {
        assert EdgeIs(g, nameToId[k], nameToId[m], pairs(k, m));
      } else {
        var s := SlotOf(nameToId'[k], nameToId'[m]);
        assert s in g.edges ==> s.0 in g.records && s.1 in g.records;
      }
    }
  }

  ghost predicate IdsOfNames(ids: seq<string>, names: set<string>, nameToId: map<string, string>) {
    names <= nameToId.Keys && forall id :: id in ids <==> exists k :: k in names && nameToId[k] == id
  }

  lemma NoIdsYet(b: Builder, mentions: seq<string>, nameToId: map<string, string>)
    ensures IdsOfNames([], {}, nameToId) && Lowered(b, mentions[..0]) == {}
  {
  }

  lemma IdsOfOneMore(ids: seq<string>, names: set<string>, was: map<string, string>, now: map<string, string>,
                     key: string)
    requires IdsOfNames(ids, names, was) && now.Keys == was.Keys + {key} && forall k :: k in was ==> now[k] == was[k]
    ensures IdsOfNames(ids + [now[key]], names + {key}, now)
  {
    forall id ensures id in ids + [now[key]] <==> exists k :: k in names + {key} && now[k] == id {
      if id == now[key] { assert key in names + {key}; }
      if id in ids {
        var k :| k in names && was[k] == id;
        assert k in names + {key} && now[k] == id;
      }
    }
  }

  method AddMentions(b: Builder, eg: EntityGraph, chunk: Chunk, ghost before: seq<Chunk>) returns (ids: seq<string>)
    requires InjectiveId(b) && NewSpan(before, chunk)
    requires EntitiesAre(b, eg.graph.records, eg.nameToId, NameSpans(b, before, chunk, {}))
    requires EdgesAre(eg.graph, eg.nameToId, PairSpans(b, before, chunk, {}))
    modifies eg
    ensures EntitiesAre(b, eg.graph.records, eg.nameToId, NameSpans(b, before, chunk, NamesIn(b, chunk)))
    ensures EdgesAre(eg.graph, eg.nameToId, PairSpans(b, before, chunk, {}))
    ensures IdsOfNames(ids, NamesIn(b, chunk), eg.nameToId)
  {
    hide EntitiesAre, EdgesAre, Lowered, IdsOfNames;
    var mentions := b.mentions(chunk.text);
    ids := [];
    ghost var done: set<string> := {};
    NoIdsYet(b, mentions, eg.nameToId);
    for x := 0 to |mentions|
      invariant done == Lowered(b, mentions[..x])
      invariant IdsOfNames(ids, done, eg.nameToId)
      invariant EntitiesAre(b, eg.graph.records, eg.nameToId, NameSpans(b, before, chunk, done))
      invariant EdgesAre(eg.graph, eg.nameToId, PairSpans(b, before, chunk, {}))
    {
      ghost var g, names, key := eg.graph, eg.nameToId, b.lower(mentions[x]);
      var id := eg.UpsertEntity(b, mentions[x], chunk, NameSpans(b, before, chunk, done));
      MentionAdded(b, before, chunk, done, key, g, names, eg.graph, eg.nameToId);
      IdsOfOneMore(ids, done, names, eg.nameToId, key);
      LoweredAppend(b, mentions, x);
      ids := ids + [id];
      done := done + {key};
    }
    assert mentions[..|mentions|] == mentions;
  }

  lemma MentionAdded(b: Builder, before: seq<Chunk>, c: Chunk, done: set<string>, key: string, g: Graph,
                     names: map<string, string>, g': Graph, names': map<string, string>)
    requires NewSpan(before, c)
    requires EntitiesAre(b, g.records, names, NameSpans(b, before, c, done))
    requires EdgesAre(g, names, PairSpans(b, before, c, {})) && g'.edges == g.edges
    requires names'.Keys == names.Keys + {key} && forall k :: k in names ==> names'[k] == names[k]
    requires g'.records.Keys == g.records.Keys + {names'[key]} && (key !in names ==> names'[key] !in g.records)
    requires EntitiesAre(b, g'.records, names', WithSpan(NameSpans(b, before, c, done), key, SpanOf(c)))
    ensures EntitiesAre(b, g'.records, names', NameSpans(b, before, c, done + {key}))
    ensures EdgesAre(g', names', PairSpans(b, before, c, {}))
  {
    hide EdgesAre, EntitiesAre, Mentioning, WithSpan, NewSpan;
    forall k
      ensures WithSpan(NameSpans(b, before, c, done), key, SpanOf(c))(k) == NameSpans(b, before, c, done + {key})(k)
    {
      NextName(b, before, c, done, key, k);
    }
    SameSpansSameEntities(b, g'.records, names', WithSpan(NameSpans(b, before, c, done), key, SpanOf(c)),
                          NameSpans(b, before, c, done + {key}));
    if key !in names {
      UnknownNameHasNoSpans(b, before, c, done, key, g, names);
      forall m ensures PairSpans(b, before, c, {})(key, m) == [] && PairSpans(b, before, c, {})(m, key) == [] {
        UnknownNameUnmentioned(b, before, key, m);
      }
    }
    NewNameHasNoEdges(b, before, g, names, g', names', key, PairSpans(b, before, c, {}));
  }

  lemma UnknownNameHasNoSpans(b: Builder, before: seq<Chunk>, c: Chunk, done: set<string>, key: string, g: Graph,
                              names: map<string, string>)
    requires EntitiesAre(b, g.records, names, NameSpans(b, before, c, done)) && key !in names
    ensures Mentioning(b, before, {key}) == []
  {
    hide Mentioning;
    assert NameIs(b, g.records, names, key, NameSpans(b, before, c, done)(key));
  }

  // ----- every pair of names met in one chunk -----

  ghost predicate DistinctIds(nameToId: map<string, string>) {
    forall k, m :: k in nameToId && m in nameToId && nameToId[k] == nameToId[m] ==> k == m
  }

  /** `ids[x]` is the id of `keys[x]`. */
  ghost predicate Aligned(ids: seq<string>, keys: seq<string>, nameToId: map<string, string>) {
    && |ids| == |keys| && Order.NoDuplicates(keys)
    && forall x :: 0 <= x < |ids| ==> keys[x] in nameToId && nameToId[keys[x]] == ids[x]
  }

  predicate Before(i: int, j: int, x: int, y: int) { i < x || (i == x && j < y) }

  ghost predicate ListedPair(keys: seq<string>, p: string, q: string, x: int, y: int) {
    exists i, j :: 0 <= i < j < |keys| && {keys[i], keys[j]} == {p, q} && Before(i, j, x, y)
  }

  /** `done` holds the pairs met before position `(x, y)` of the double loop. */
  ghost predicate DonePairs(keys: seq<string>, done: set<set<string>>, x: int, y: int) {
    forall p, q :: p != q ==> ({p, q} in done <==> ListedPair(keys, p, q, x, y))
  }

  lemma OneMorePair(keys: seq<string>, done: set<set<string>>, x: int, y: int)
    requires DonePairs(keys, done, x, y) && 0 <= x < y < |keys|
    ensures DonePairs(keys, done + {{keys[x], keys[y]}}, x, y + 1)
  {
    var next := y + 1;
    forall p, q | p != q ensures {p, q} in done + {{keys[x], keys[y]}} <==> ListedPair(keys, p, q, x, next) {
      if ListedPair(keys, p, q, x, y) {
        var i, j :| 0 <= i < j < |keys| && {keys[i], keys[j]} == {p, q} && Before(i, j, x, y);
        assert Before(i, j, x, next);
      }
      if {p, q} == {keys[x], keys[y]} { assert Before(x, y, x, next); }
      if ListedPair(keys, p, q, x, next) {
        var i, j :| 0 <= i < j < |keys| && {keys[i], keys[j]} == {p, q} && Before(i, j, x, next);
        assert Before(i, j, x, y) || (i == x && j == y);
      }
    }
  }

  lemma NextRow(keys: seq<string>, done: set<set<string>>, x: int, x': int, y: int)
    requires DonePairs(keys, done, x, |keys|) && 0 <= x < |keys| && x' == x + 1 && y == x + 2
    ensures DonePairs(keys, done, x', y)
  {
    forall p, q | p != q ensures {p, q} in done <==> ListedPair(keys, p, q, x', y) {
      if ListedPair(keys, p, q, x, |keys|) {
        var i, j :| 0 <= i < j < |keys| && {keys[i], keys[j]} == {p, q} && Before(i, j, x, |keys|);
        assert Before(i, j, x', y);
      }
      if ListedPair(keys, p, q, x', y) {
        var i, j :| 0 <= i < j < |keys| && {keys[i], keys[j]} == {p, q} && Before(i, j, x', y);
        assert Before(i, j, x, |keys|);
      }
    }
  }

  lemma AllPairs(keys: seq<string>, done: set<set<string>>, names: set<string>, p: string, q: string, y: int)
    requires DonePairs(keys, done, |keys|, y) && p != q && forall k :: k in keys <==> k in names
    ensures {p, q} in done <==> {p, q} <= names
  {
    if {p, q} <= names {
      var i :| 0 <= i < |keys| && keys[i] == p;
      var j :| 0 <= j < |keys| && keys[j] == q;
      assert if i < j then {keys[i], keys[j]} == {p, q} else {keys[j], keys[i]} == {p, q};
      assert Before(i, j, |keys|, y) && Before(j, i, |keys|, y);
    }
    if ListedPair(keys, p, q, |keys|, y) {
      var i, j :| 0 <= i < j < |keys| && {keys[i], keys[j]} == {p, q} && Before(i, j, |keys|, y);
      assert p in {keys[i], keys[j]} && q in {keys[i], keys[j]};
      assert keys[i] in keys && keys[j] in keys;
    }
  }

  lemma EdgeEitherWay(g: Graph, a: string, c: string, ss: seq<Span>)
    requires EdgeIs(g, a, c, ss)
    ensures EdgeIs(g, c, a, ss)
  {
    SlotIsUnordered(a, c);
  }

  lemma OtherEdge(g: Graph, g': Graph, a: string, c: string, slot: Slot, ss: seq<Span>)
    requires EdgeIs(g, a, c, ss) && SlotOf(a, c) != slot && g'.edges.Keys == g.edges.Keys + {slot}
    requires forall s :: s in g.edges && s != slot ==> g'.edges[s] == g.edges[s]
    ensures EdgeIs(g', a, c, ss)
  {
  }

  lemma PairAddedAt(b: Builder, before: seq<Chunk>, c: Chunk, done: set<set<string>>, k: string, m: string, g: Graph,
                    g': Graph, idK: string, idM: string, p: string, q: string, idP: string, idQ: string)
    requires EdgeIs(g, idP, idQ, PairSpans(b, before, c, done)(p, q)) && p != q && k != m
    requires (idP == idK <==> p == k) && (idP == idM <==> p == m) && (idQ == idK <==> q == k)
      && (idQ == idM <==> q == m)
    requires EdgeIs(g', idK, idM, PairSpans(b, before, c, done + {{k, m}})(k, m))
    requires g'.edges.Keys == g.edges.Keys + {SlotOf(idK, idM)}
    requires forall s :: s in g.edges && s != SlotOf(idK, idM) ==> g'.edges[s] == g.edges[s]
    ensures EdgeIs(g', idP, idQ, PairSpans(b, before, c, done + {{k, m}})(p, q))
  {
    hide EdgeIs, SlotOf, Mentioning;
    var now := PairSpans(b, before, c, done + {{k, m}});
    SlotIsUnordered(idK, idM);
    if (p == k && q == m) || (p == m && q == k) {
      assert {p, q} == {k, m};
      assert now(p, q) == now(k, m);
      EdgeEitherWay(g', idK, idM, now(k, m));
    } else {
      if {p, q} == {k, m} { PairMembers(p, q, k, m); }
      OtherEdge(g, g', idP, idQ, SlotOf(idK, idM), now(p, q));
    }
  }

  lemma PairAdded(b: Builder, before: seq<Chunk>, c: Chunk, done: set<set<string>>, k: string, m: string, g: Graph,
                  g': Graph, nameToId: map<string, string>)
    requires EdgesAre(g, nameToId, PairSpans(b, before, c, done)) && DistinctIds(nameToId)
    requires k in nameToId && m in nameToId && k != m && nameToId[k] in g.records && nameToId[m] in g.records
    requires g'.records == g.records
    requires EdgeIs(g', nameToId[k], nameToId[m], PairSpans(b, before, c, done + {{k, m}})(k, m))
    requires g'.edges.Keys == g.edges.Keys + {SlotOf(nameToId[k], nameToId[m])}
    requires forall s :: s in g.edges && s != SlotOf(nameToId[k], nameToId[m]) ==> g'.edges[s] == g.edges[s]
    ensures EdgesAre(g', nameToId, PairSpans(b, before, c, done + {{k, m}}))
  {
    hide EdgeIs, SlotOf, Mentioning, PairSpans;
    var now := PairSpans(b, before, c, done + {{k, m}});
    SlotIsUnordered(nameToId[k], nameToId[m]);
    forall p, q | p in nameToId && q in nameToId && p != q ensures EdgeIs(g', nameToId[p], nameToId[q], now(p, q)) {
      assert EdgeIs(g, nameToId[p], nameToId[q], PairSpans(b, before, c, done)(p, q));
      PairAddedAt(b, before, c, done, k, m, g, g', nameToId[k], nameToId[m], p, q, nameToId[p], nameToId[q]);
    }
  }

  lemma PairMembers(p: string, q: string, k: string, m: string)
    requires {p, q} == {k, m} && p != q
    ensures (p == k && q == m) || (p == m && q == k)
  {
    assert p in {k, m} && q in {k, m};
  }

  /** `combinations(sorted(set(entity_ids)), 2)`, each pair upserted once. */
  method AddPairs(b: Builder, eg: EntityGraph, chunk: Chunk, ids: seq<string>, ghost keys: seq<string>,
                  ghost before: seq<Chunk>)
    returns (ghost done: set<set<string>>)
    requires Aligned(ids, keys, eg.nameToId) && DistinctIds(eg.nameToId) && NewSpan(before, chunk)
    requires forall id :: id in ids ==> id in eg.graph.records
    requires EdgesAre(eg.graph, eg.nameToId, PairSpans(b, before, chunk, {}))
    modifies eg
    ensures eg.nameToId == old(eg.nameToId) && eg.graph.records == old(eg.graph.records)
    ensures EdgesAre(eg.graph, eg.nameToId, PairSpans(b, before, chunk, done))
    ensures DonePairs(keys, done, |keys|, |keys| + 1)
  {
    hide EdgesAre, DonePairs, EdgeIs;
    done := {};
    NoPairsYet(keys);
    ghost var row := 1;
    for x := 0 to |ids|
      invariant eg.nameToId == old(eg.nameToId) && eg.graph.records == old(eg.graph.records)
      invariant EdgesAre(eg.graph, eg.nameToId, PairSpans(b, before, chunk, done))
      invariant row == x + 1 && DonePairs(keys, done, x, row)
    {
      for y := x + 1 to |ids|
        invariant eg.nameToId == old(eg.nameToId) && eg.graph.records == old(eg.graph.records)
        invariant EdgesAre(eg.graph, eg.nameToId, PairSpans(b, before, chunk, done))
        invariant DonePairs(keys, done, x, y)
      {
        done := AddPair(b, eg, chunk, ids, keys, before, done, x, y);
      }
      NextRow(keys, done, x, x + 1, x + 2);
      row := row + 1;
    }
  }

  lemma NoPairsYet(keys: seq<string>)
    ensures DonePairs(keys, {}, 0, 1)
  {
  }

  method AddPair(b: Builder, eg: EntityGraph, chunk: Chunk, ids: seq<string>, ghost keys: seq<string>,
                 ghost before: seq<Chunk>, ghost done0: set<set<string>>, x: nat, y: nat)
    returns (ghost done: set<set<string>>)
    requires Aligned(ids, keys, eg.nameToId) && DistinctIds(eg.nameToId) && NewSpan(before, chunk)
    requires x < y < |ids| && ids[x] in eg.graph.records && ids[y] in eg.graph.records
    requires EdgesAre(eg.graph, eg.nameToId, PairSpans(b, before, chunk, done0))
    requires DonePairs(keys, done0, x, y)
    modifies eg
    ensures eg.nameToId == old(eg.nameToId) && eg.graph.records == old(eg.graph.records)
    ensures EdgesAre(eg.graph, eg.nameToId, PairSpans(b, before, chunk, done))
    ensures DonePairs(keys, done, x, y + 1)
  {
    hide EdgesAre, DonePairs, EdgeIs;
    ghost var g, k, m := eg.graph, keys[x], keys[y];
    ghost var ss := PairSpans(b, before, chunk, done0)(k, m);
    PairStillOpen(b, before, chunk, keys, done0, x, y, g, eg.nameToId);
    var r := eg.UpsertRelation(ids[x], ids[y], chunk, ss);
    done := done0 + {{k, m}};
    assert PairSpans(b, before, chunk, done)(k, m) == ss + [SpanOf(chunk)];
    PairAdded(b, before, chunk, done0, k, m, g, eg.graph, eg.nameToId);
    OneMorePair(keys, done0, x, y);
  }

  lemma PairStillOpen(b: Builder, before: seq<Chunk>, c: Chunk, keys: seq<string>, done: set<set<string>>, x: nat,
                      y: nat, g: Graph, nameToId: map<string, string>)
    requires EdgesAre(g, nameToId, PairSpans(b, before, c, done)) && DonePairs(keys, done, x, y) && NewSpan(before, c)
    requires x < y < |keys| && Order.NoDuplicates(keys) && keys[x] in nameToId && keys[y] in nameToId
    ensures keys[x] != keys[y] && {keys[x], keys[y]} !in done
    ensures var ss := PairSpans(b, before, c, done)(keys[x], keys[y]);
      SpanOf(c) !in ss && EdgeIs(g, nameToId[keys[x]], nameToId[keys[y]], ss)
  {
    var k, m := keys[x], keys[y];
    assert k != m;
    if ListedPair(keys, k, m, x, y) {
      var i, j :| 0 <= i < j < |keys| && {keys[i], keys[j]} == {k, m} && Before(i, j, x, y);
      PairMembers(k, m, keys[i], keys[j]);
    }
    MentioningMembers(b, before, {k, m}, SpanOf(c));
  }

  // ----- build_entity_graph -----

  /** What the graph says after some chunks: every count is the direct count over them. */
  ghost predicate Built(b: Builder, chunks: seq<Chunk>, g: Graph, nameToId: map<string, string>) {
    && EntitiesAre(b, g.records, nameToId, k => Mentioning(b, chunks, {k}))
    && EdgesAre(g, nameToId, (k, m) => Mentioning(b, chunks, {k, m}))
  }

  ghost predicate DistinctSpans(chunks: seq<Chunk>) {
    forall i, j :: 0 <= i < j < |chunks| ==> SpanOf(chunks[i]) != SpanOf(chunks[j])
  }

  lemma SamePairsSameEdges(g: Graph, nameToId: map<string, string>, f: (string, string) -> seq<Span>,
                           h: (string, string) -> seq<Span>)
    requires EdgesAre(g, nameToId, f) && forall k, m :: k != m ==> f(k, m) == h(k, m)
    ensures EdgesAre(g, nameToId, h)
  {
    hide EdgeIs;
    forall k, m | k in nameToId && m in nameToId && k != m ensures EdgeIs(g, nameToId[k], nameToId[m], h(k, m)) {
      assert EdgeIs(g, nameToId[k], nameToId[m], f(k, m));
    }
  }

  lemma StartChunk(b: Builder, before: seq<Chunk>, c: Chunk, g: Graph, nameToId: map<string, string>)
    requires Built(b, before, g, nameToId)
    ensures EntitiesAre(b, g.records, nameToId, NameSpans(b, before, c, {}))
    ensures EdgesAre(g, nameToId, PairSpans(b, before, c, {}))
  {
    hide EntitiesAre, EdgesAre;
    SameSpansSameEntities(b, g.records, nameToId, k => Mentioning(b, before, {k}), NameSpans(b, before, c, {}));
    SamePairsSameEdges(g, nameToId, (k, m) => Mentioning(b, before, {k, m}), PairSpans(b, before, c, {}));
  }

  lemma EndChunk(b: Builder, before: seq<Chunk>, c: Chunk, keys: seq<string>, done: set<set<string>>, g: Graph,
                 nameToId: map<string, string>)
    requires EntitiesAre(b, g.records, nameToId, NameSpans(b, before, c, NamesIn(b, c)))
    requires EdgesAre(g, nameToId, PairSpans(b, before, c, done))
    requires DonePairs(keys, done, |keys|, |keys| + 1) && forall k :: k in keys <==> k in NamesIn(b, c)
    ensures Built(b, before + [c], g, nameToId)
  {
    hide EntitiesAre, EdgesAre, NamesIn;
    var chunks := before + [c];
    assert chunks[..|chunks| - 1] == before;
    forall k ensures NameSpans(b, before, c, NamesIn(b, c))(k) == Mentioning(b, chunks, {k}) { }
    forall k, m | k != m ensures PairSpans(b, before, c, done)(k, m) == Mentioning(b, chunks, {k, m}) {
      AllPairs(keys, done, NamesIn(b, c), k, m, |keys| + 1);
    }
    SameSpansSameEntities(b, g.records, nameToId, NameSpans(b, before, c, NamesIn(b, c)),
                          k => Mentioning(b, chunks, {k}));
    SamePairsSameEdges(g, nameToId, PairSpans(b, before, c, done), (k, m) => Mentioning(b, chunks, {k, m}));
  }

  /** `sorted(set(ids))` */
  method SortedDistinct(xs: seq<string>) returns (ys: seq<string>)
    ensures Order.NoDuplicates(ys) && Order.Sorted(ys, Order.StrLe) && forall x :: x in ys <==> x in xs
  {
    hide Order.SortBy, Order.Distinct, Order.StrLe;
    var distinct := Order.Distinct(xs);
    forall x ensures x in distinct <==> x in xs { Order.DistinctMembers(xs, x); }
    Order.DistinctMembers(xs, "");
    Order.SortedStrings(distinct);
    Order.StrLeIsTotalOrder();
    Order.SortedNoDuplicates(distinct, Order.StrLe);
    ys := Order.SortBy(distinct, Order.StrLe);
  }

  lemma KeysOfIds(b: Builder, g: Graph, nameToId: map<string, string>, spans: string -> seq<Span>, raw: seq<string>,
                  ids: seq<string>, names: set<string>) returns (keys: seq<string>)
    requires EntitiesAre(b, g.records, nameToId, spans) && IdsOfNames(raw, names, nameToId)
    requires Order.NoDuplicates(ids) && forall id :: id in ids <==> id in raw
    ensures Aligned(ids, keys, nameToId) && DistinctIds(nameToId)
    ensures forall id :: id in ids ==> id in g.records
    ensures forall k :: k in keys <==> k in names
  {
    forall k, m | k in nameToId && m in nameToId && nameToId[k] == nameToId[m] ensures k == m {
      IdsFollowNames(b, g.records, nameToId, spans, k, m);
    }
    forall k | k in nameToId ensures nameToId[k] in g.records && b.lower(g.records[nameToId[k]].name) == k {
      assert NameIs(b, g.records, nameToId, k, spans(k));
    }
    forall x | 0 <= x < |ids| ensures ids[x] in g.records && b.lower(g.records[ids[x]].name) in names
                              && nameToId[b.lower(g.records[ids[x]].name)] == ids[x] {
      assert ids[x] in raw;
      var k :| k in names && nameToId[k] == ids[x];
    }
    keys := seq(|ids|, x requires 0 <= x < |ids| && ids[x] in g.records => b.lower(g.records[ids[x]].name));
    forall k | k in names ensures k in keys {
      assert nameToId[k] in raw;
      assert nameToId[k] in ids;
      var x :| 0 <= x < |ids| && ids[x] == nameToId[k];
      assert keys[x] == k;
    }
  }

  /** `build_entity_graph` */
  method BuildEntityGraph(b: Builder, chunks: seq<Chunk>) returns (eg: EntityGraph)
    requires InjectiveId(b) && DistinctSpans(chunks)
    ensures fresh(eg) && Built(b, chunks, eg.graph, eg.nameToId)
  {
    hide Built, EntitiesAre, EdgesAre, DonePairs, IdsOfNames, Order.SortBy;
    eg := new EntityGraph();
    EmptyIsBuilt(b);
    for i := 0 to |chunks|
      invariant fresh(eg) && Built(b, chunks[..i], eg.graph, eg.nameToId)
    {
      ghost var before := chunks[..i];
      assert NewSpan(before, chunks[i]);
      StartChunk(b, before, chunks[i], eg.graph, eg.nameToId);
      var raw := AddMentions(b, eg, chunks[i], before);
      var ids := SortedDistinct(raw);
      ghost var keys := KeysOfIds(b, eg.graph, eg.nameToId, NameSpans(b, before, chunks[i], NamesIn(b, chunks[i])),
                                  raw, ids, NamesIn(b, chunks[i]));
      ghost var done := AddPairs(b, eg, chunks[i], ids, keys, before);
      EndChunk(b, before, chunks[i], keys, done, eg.graph, eg.nameToId);
      assert chunks[..i + 1] == before + [chunks[i]];
    }
    assert chunks[..|chunks|] == chunks;
  }

  lemma EmptyIsBuilt(b: Builder)
    ensures Built(b, [], Graph(map[], map[]), map[])
  {
  }

  // ----- what that means -----

  /** How many chunks mention every name of `names`. */
  function CountMentioning(b: Builder, chunks: seq<Chunk>, names: set<string>): nat {
    |set i | 0 <= i < |chunks| && names <= NamesIn(b, chunks[i])|
  }

  lemma {:induction false} MentioningCounts(b: Builder, chunks: seq<Chunk>, names: set<string>)
    ensures |Mentioning(b, chunks, names)| == CountMentioning(b, chunks, names)
  {
    hide NamesIn;
    if chunks != [] {
      var n := |chunks| - 1;
      var front := chunks[..n];
      MentioningCounts(b, front, names);
      var was := set i | 0 <= i < n && names <= NamesIn(b, front[i]);
      var now := set i | 0 <= i < |chunks| && names <= NamesIn(b, chunks[i]);
      assert now == was + if names <= NamesIn(b, chunks[n]) then {n} else {};
    }
  }

  /** Entities agree with a direct count: a name has a node iff some chunk mentions
      it, and its provenance is exactly the spans of those chunks. */
  lemma EntityAgreesWithCount(b: Builder, chunks: seq<Chunk>, g: Graph, nameToId: map<string, string>, name: string)
    requires Built(b, chunks, g, nameToId)
    ensures b.lower(name) in nameToId <==> exists c :: c in chunks && b.lower(name) in NamesIn(b, c)
    ensures b.lower(name) in nameToId ==>
              var id := nameToId[b.lower(name)];
              && id in g.records && b.lower(g.records[id].name) == b.lower(name)
              && |g.records[id].provenance| == CountMentioning(b, chunks, {b.lower(name)})
              && forall sp :: sp in g.records[id].provenance <==>
                   exists c :: c in chunks && b.lower(name) in NamesIn(b, c) && SpanOf(c) == sp
  {
    hide EdgesAre, NamesIn;
    var k := b.lower(name);
    var spans := Mentioning(b, chunks, {k});
    var spansOf: string -> seq<Span> := x => Mentioning(b, chunks, {x});
    assert NameIs(b, g.records, nameToId, k, spansOf(k));
    MentioningCounts(b, chunks, {k});
    forall sp ensures sp in spans <==> exists c :: c in chunks && k in NamesIn(b, c) && SpanOf(c) == sp {
      MentioningMembers(b, chunks, {k}, sp);
      assert forall c :: {k} <= NamesIn(b, c) <==> k in NamesIn(b, c);
    }
    if spans != [] { assert spans[0] in spans; }
    if c :| c in chunks && k in NamesIn(b, c) { assert SpanOf(c) in spans; }
  }

  /** Edges agree with a direct count: two known names are adjacent iff some chunk
      mentions both, the weight is the number of such chunks and the length of the
      edge's provenance, and the subject id is the smaller one. */
  lemma EdgeAgreesWithCount(b: Builder, chunks: seq<Chunk>, g: Graph, nameToId: map<string, string>, k: string,
                            m: string)
    requires Built(b, chunks, g, nameToId) && k in nameToId && m in nameToId && k != m
    ensures Adjacent(g, nameToId[k], nameToId[m]) <==> CountMentioning(b, chunks, {k, m}) > 0
    ensures Adjacent(g, nameToId[k], nameToId[m]) ==>
              var r := g.edges[SlotOf(nameToId[k], nameToId[m])];
              && r.weight == |r.provenance| == CountMentioning(b, chunks, {k, m})
              && r.subject != r.obj && Order.StrLe(r.subject, r.obj)
              && {r.subject, r.obj} == {nameToId[k], nameToId[m]}
  {
    hide NamesIn;
    MentioningCounts(b, chunks, {k, m});
    assert EdgeIs(g, nameToId[k], nameToId[m], Mentioning(b, chunks, {k, m}));
    IdsFollowNamesIn(b, chunks, g, nameToId, k, m);
    Order.StrLeTotal(nameToId[k], nameToId[m]);
  }

  lemma IdsFollowNamesIn(b: Builder, chunks: seq<Chunk>, g: Graph, nameToId: map<string, string>, k: string, m: string)
    requires Built(b, chunks, g, nameToId) && k in nameToId && m in nameToId && k != m
    ensures nameToId[k] != nameToId[m]
  {
    hide EdgesAre, EntitiesAre;
    if nameToId[k] == nameToId[m] {
      IdsFollowNames(b, g.records, nameToId, x => Mentioning(b, chunks, {x}), k, m);
    }
  }
}
