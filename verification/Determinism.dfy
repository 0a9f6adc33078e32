/** How far graph construction is a function of its input: everything but the
    order of spans that share chunk and start, which a set leaves open. */
module Determinism {
  import opened Schemas
  import opened Grouping
  import opened Chunking
  import opened Provenance
  import opened EntityGraphs
  import opened Construction
  import opened Records
  import opened EntityResolution
  import opened NovelGraph
  import Order
  import Matching
  import Merge
  import Partition
  import Segmentation

  // ----- one list of spans -----

  /** No two spans of the list tie, so that no other listing of them is sorted. */
  ghost predicate Settled(spans: seq<Span>) { KeysDiffer(SpanSet(spans)) }

  lemma SpanSetOfArrangement(s: set<Span>, xs: seq<Span>)
    requires Arrangement(s, xs)
    ensures SpanSet(xs) == s
  {
  }

  lemma SettledIsUnique(s: set<Span>, xs: seq<Span>, ys: seq<Span>)
    requires Arrangement(s, xs) && Arrangement(s, ys) && Settled(xs)
    ensures xs == ys
  {
    SpanSetOfArrangement(s, xs);
    ArrangementIsUnique(s, xs, ys);
  }

  lemma Rearranged(s: set<Span>, xs: seq<Span>) returns (ys: seq<Span>)
    requires Arrangement(s, xs) && !Settled(xs)
    ensures Arrangement(s, ys) && ys != xs && SpanSet(ys) == SpanSet(xs)
  {
    hide Arrangement;
    SpanSetOfArrangement(s, xs);
    SortedSetIsDeterministicIff(s, xs);
    ys :| Arrangement(s, ys) && ys != xs;
    SpanSetOfArrangement(s, ys);
  }

  // ----- entities -----

  lemma MajorityTypeIsUnique(members: seq<Merge.Mention>, a: string, b: string)
    requires IsMajorityType(members, a) && IsMajorityType(members, b)
    ensures a == b
  {
    hide MostCommon;
  }

  /** Name, type and id of a component are one; its spans are one set. */
  lemma MergedUpToOrder(hash: EntityHash, members: seq<Merge.Mention>, d: Entity, e: Entity)
    requires EntityResolution.Anchored(members) && IsMerged(hash, members, d) && IsMerged(hash, members, e)
    ensures d == e.(provenance := d.provenance) && (Settled(d.provenance) ==> d == e)
  {
    hide IsCanonicalName, IsMajorityType, Arrangement, Settled;
    CanonicalNameIsUnique(members, d.name, e.name);
    MajorityTypeIsUnique(members, d.kind, e.kind);
    if Settled(d.provenance) { SettledIsUnique(UnionOf(MentionSpans(members)), d.provenance, e.provenance); }
  }

  lemma MapsSameIds(components: seq<seq<Merge.Mention>>, a: seq<Entity>, b: seq<Entity>, i: map<Ref, string>,
                    j: map<Ref, string>, ref: Ref)
    requires |a| == |b| && forall x :: 0 <= x < |a| ==> a[x].id == b[x].id
    requires Maps(components, a, i, ref) && Maps(components, b, j, ref)
    ensures ref in i <==> ref in j
    ensures ref in i ==> i[ref] == j[ref]
  {
    hide InComponent;
    if ref in i && ref in j {
      var x :| 0 <= x < |a| && InComponent(components, x, ref) && i[ref] == a[x].id
        && forall y :: x < y < |a| ==> !InComponent(components, y, ref);
      var z :| 0 <= z < |b| && InComponent(components, z, ref) && j[ref] == b[z].id
        && forall y :: z < y < |b| ==> !InComponent(components, y, ref);
      assert x == z;
    }
  }

  /** References resolve to the same ids, however spans that tie are listed. */
  lemma IdsAreUnique(hash: EntityHash, components: seq<seq<Merge.Mention>>, a: seq<Entity>, es: seq<Entity>,
                     i: map<Ref, string>, b: seq<Entity>, fs: seq<Entity>, j: map<Ref, string>)
    requires forall x :: 0 <= x < |components| ==> EntityResolution.Anchored(components[x])
    requires ResolvedAs(hash, components, a, es, i) && ResolvedAs(hash, components, b, fs, j)
    ensures i == j && forall x :: 0 <= x < |a| ==> b[x] == a[x].(provenance := b[x].provenance)
  {
    hide IsMerged, Maps, Order.SortBy;
    forall x | 0 <= x < |a| ensures b[x] == a[x].(provenance := b[x].provenance) {
      MergedUpToOrder(hash, components[x], b[x], a[x]);
    }
    forall ref ensures (ref in i <==> ref in j) && (ref in i ==> i[ref] == j[ref]) {
      MapsSameIds(components, a, b, i, j, ref);
    }
  }

  ghost predicate EntitiesSettled(es: seq<Entity>) { forall e :: e in es ==> Settled(e.provenance) }

  lemma SettledMembers(a: seq<Entity>, es: seq<Entity>)
    requires multiset(es) == multiset(a)
    ensures EntitiesSettled(es) <==> EntitiesSettled(a)
  {
    forall e ensures e in es <==> e in a { EntitiesAreMerged(a, es, e); }
  }

  lemma EntitiesAreUnique(hash: EntityHash, components: seq<seq<Merge.Mention>>, a: seq<Entity>, es: seq<Entity>,
                          i: map<Ref, string>, b: seq<Entity>, fs: seq<Entity>, j: map<Ref, string>)
    requires forall x :: 0 <= x < |components| ==> EntityResolution.Anchored(components[x])
    requires ResolvedAs(hash, components, a, es, i) && ResolvedAs(hash, components, b, fs, j) && EntitiesSettled(es)
    ensures es == fs
  {
    hide IsMerged, Maps, Order.SortBy, Settled;
    SettledMembers(a, es);
    forall x | 0 <= x < |a| ensures a[x] == b[x] {
      assert a[x] in a;
      MergedUpToOrder(hash, components[x], a[x], b[x]);
    }
    assert a == b;
  }

  lemma MapsKept(components: seq<seq<Merge.Mention>>, a: seq<Entity>, b: seq<Entity>, i: map<Ref, string>, ref: Ref)
    requires |a| == |b| && (forall x :: 0 <= x < |a| ==> a[x].id == b[x].id) && Maps(components, a, i, ref)
    ensures Maps(components, b, i, ref)
  {
    hide InComponent;
  }

  lemma OtherMerged(hash: EntityHash, members: seq<Merge.Mention>, e: Entity) returns (d: Entity)
    requires IsMerged(hash, members, e) && !Settled(e.provenance)
    ensures IsMerged(hash, members, d) && d != e && d.id == e.id
  {
    hide Settled, IsCanonicalName, IsMajorityType, Arrangement;
    var ys := Rearranged(UnionOf(MentionSpans(members)), e.provenance);
    d := e.(provenance := ys);
  }

  /** Listing the spans of one entity otherwise gives another result. */
  lemma OtherEntities(hash: EntityHash, components: seq<seq<Merge.Mention>>, a: seq<Entity>, es: seq<Entity>,
                      i: map<Ref, string>) returns (b: seq<Entity>, fs: seq<Entity>)
    requires ResolvedAs(hash, components, a, es, i) && !EntitiesSettled(es)
    ensures ResolvedAs(hash, components, b, fs, i) && fs != es
  {
    hide Maps, Order.SortBy, Settled, IsMerged;
    SettledMembers(a, es);
    var e :| e in a && !Settled(e.provenance);
    var x :| 0 <= x < |a| && a[x] == e;
    var d := OtherMerged(hash, components[x], e);
    b := a[x := d];
    fs := Order.SortBy(b, IdLe);
    IdLeIsTotal();
    Order.SortByCorrect(b, IdLe);
    forall ref ensures Maps(components, b, i, ref) { MapsKept(components, a, b, i, ref); }
    assert multiset(b)[e] == multiset(a)[e] - 1;
    assert multiset(fs)[e] != multiset(es)[e];
  }

  /** `resolve_entities` has one result exactly when no entity has two spans that tie. */
  lemma ResolutionIsUniqueIff(hash: EntityHash, components: seq<seq<Merge.Mention>>, a: seq<Entity>, es: seq<Entity>,
                              i: map<Ref, string>)
    requires forall x :: 0 <= x < |components| ==> EntityResolution.Anchored(components[x])
    requires ResolvedAs(hash, components, a, es, i)
    ensures (forall b, fs, j :: ResolvedAs(hash, components, b, fs, j) ==> fs == es && j == i) <==> EntitiesSettled(es)
  {
    hide ResolvedAs, EntitiesSettled;
    if EntitiesSettled(es) {
      forall b, fs, j | ResolvedAs(hash, components, b, fs, j) ensures fs == es && j == i {
        EntitiesAreUnique(hash, components, a, es, i, b, fs, j);
        IdsAreUnique(hash, components, a, es, i, b, fs, j);
      }
    } else {
      var b, fs := OtherEntities(hash, components, a, es, i);
    }
  }

  /** Entities that share an id stay in the order of their components. */
  lemma EqualIdsKeepOrder(hash: EntityHash, components: seq<seq<Merge.Mention>>, a: seq<Entity>, es: seq<Entity>,
                          i: map<Ref, string>, id: string)
    requires ResolvedAs(hash, components, a, es, i)
    ensures Filter(HasId(id), es) == Filter(HasId(id), a)
  {
    hide Maps, IsMerged, Order.SortBy;
    IdLeIsTotal();
    forall x, y | HasId(id)(x) && HasId(id)(y) ensures IdLe(x, y) { Order.StrLeTotal(id, id); }
    SortIsStable(HasId(id), a, IdLe);
  }

  function HasId(id: string): Entity -> bool { (e: Entity) => e.id == id }

  /** Sorting keeps the order among elements that tie with each other. */
  lemma {:induction false} SortIsStable<T(!new)>(keep: T -> bool, xs: seq<T>, le: (T, T) -> bool)
    requires forall x, y :: keep(x) && keep(y) ==> le(x, y)
    ensures Filter(keep, Order.SortBy(xs, le)) == Filter(keep, xs)
  {
    if xs != [] {
      SortIsStable(keep, xs[1..], le);
      InsertIsStable(keep, xs[0], Order.SortBy(xs[1..], le), le);
      FilterCons(keep, xs[0], xs[1..]);
      assert xs == [xs[0]] + xs[1..];
    }
  }

  lemma {:induction false} InsertIsStable<T(!new)>(keep: T -> bool, x: T, ys: seq<T>, le: (T, T) -> bool)
    requires forall a, b :: keep(a) && keep(b) ==> le(a, b)
    ensures Filter(keep, Order.Insert(x, ys, le)) == (if keep(x) then [x] else []) + Filter(keep, ys)
  {
    if ys == [] || le(x, ys[0]) {
      FilterCons(keep, x, ys);
    } else {
      InsertIsStable(keep, x, ys[1..], le);
      FilterCons(keep, ys[0], Order.Insert(x, ys[1..], le));
      FilterCons(keep, ys[0], ys[1..]);
      assert ys == [ys[0]] + ys[1..];
    }
  }

  lemma {:induction false} FilterCons<T>(keep: T -> bool, x: T, xs: seq<T>)
    ensures Filter(keep, [x] + xs) == (if keep(x) then [x] else []) + Filter(keep, xs)
  {
    var all := [x] + xs;
    if xs == [] {
      assert all[..0] == [];
    } else {
      FilterCons(keep, x, xs[..|xs| - 1]);
      assert all[..|all| - 1] == [x] + xs[..|xs| - 1];
    }
  }

  // ----- relations -----

  ghost predicate RelationsSettled(rs: seq<Relation>) { forall r :: r in rs ==> Settled(r.provenance) }

  lemma RelationsAreUnique(ids: map<Ref, string>, facts: seq<Fact<RawRelation>>, a: seq<Relation>, b: seq<Relation>)
    requires RelationsOf(ids, facts, a) && RelationsOf(ids, facts, b) && RelationsSettled(a)
    ensures a == b
  {
    hide GroupBy, Settled, Arrangement;
    var g := GroupBy(EdgeKeys(ids), facts);
    forall x | 0 <= x < |a| ensures a[x] == b[x] {
      assert a[x] in a && EdgeFor(g.of[g.keys[x]], g.keys[x], a[x]) && EdgeFor(g.of[g.keys[x]], g.keys[x], b[x]);
      SettledIsUnique(UnionOf(Provenances(g.of[g.keys[x]])), a[x].provenance, b[x].provenance);
    }
  }

  lemma OtherRelations(ids: map<Ref, string>, facts: seq<Fact<RawRelation>>, a: seq<Relation>)
    returns (b: seq<Relation>)
    requires RelationsOf(ids, facts, a) && !RelationsSettled(a)
    ensures RelationsOf(ids, facts, b) && b != a
  {
    hide GroupBy, Settled, Arrangement, ChunkIds;
    var g := GroupBy(EdgeKeys(ids), facts);
    var r :| r in a && !Settled(r.provenance);
    var x :| 0 <= x < |a| && a[x] == r;
    assert EdgeFor(g.of[g.keys[x]], g.keys[x], r);
    var ys := Rearranged(UnionOf(Provenances(g.of[g.keys[x]])), r.provenance);
    SameSpansSameChunks(r.provenance, ys);
    b := a[x := r.(provenance := ys)];
    assert b[x] != a[x];
  }

  lemma SameSpansSameChunks(xs: seq<Span>, ys: seq<Span>)
    requires SpanSet(xs) == SpanSet(ys)
    ensures ChunkIds(xs) == ChunkIds(ys)
  {
    forall sp ensures sp in xs <==> sp in ys { assert sp in SpanSet(xs) <==> sp in SpanSet(ys); }
  }

  // ----- events -----

  ghost predicate EventsSettled(vs: seq<Event>) { forall v :: v in vs ==> Settled(v.provenance) }

  lemma CanonicalIsUnique(group: seq<Fact<RawEvent>>, a: Fact<RawEvent>, b: Fact<RawEvent>)
    requires IsCanonical(group, a) && IsCanonical(group, b)
    ensures a == b
  {
    hide FactLe;
    var i :| 0 <= i < |group| && group[i] == a && (forall k :: 0 <= k < i ==> !FactLe(group[k], a))
      && (forall k :: 0 <= k < |group| ==> FactLe(a, group[k]));
    var j :| 0 <= j < |group| && group[j] == b && (forall k :: 0 <= k < j ==> !FactLe(group[k], b))
      && (forall k :: 0 <= k < |group| ==> FactLe(b, group[k]));
    assert FactLe(group[i], group[j]) && FactLe(group[j], group[i]);
  }

  lemma EventIsUnique(group: seq<Fact<RawEvent>>, id: string, a: Event, b: Event)
    requires EventFor(group, id, a) && EventFor(group, id, b) && Settled(a.provenance)
    ensures a == b
  {
    hide IsCanonical, Settled, Arrangement;
    SettledIsUnique(UnionOf(Provenances(group)), a.provenance, b.provenance);
    forall c, d | IsCanonical(group, c) && IsCanonical(group, d) ensures c == d { CanonicalIsUnique(group, c, d); }
  }

  lemma EventsAreUnique(ids: map<Ref, string>, hash: EventHash, facts: seq<Fact<RawEvent>>, a: seq<Event>,
                        b: seq<Event>)
    requires EventsOf(ids, hash, facts, a) && EventsOf(ids, hash, facts, b) && EventsSettled(a)
    ensures a == b
  {
    hide GroupBy, Settled, EventFor;
    var g := GroupBy(EventKeys(ids, hash), facts);
    forall x | 0 <= x < |a| ensures a[x] == b[x] {
      assert a[x] in a;
      EventIsUnique(g.of[g.keys[x]], g.keys[x], a[x], b[x]);
    }
  }

  lemma OtherEvents(ids: map<Ref, string>, hash: EventHash, facts: seq<Fact<RawEvent>>, a: seq<Event>)
    returns (b: seq<Event>)
    requires EventsOf(ids, hash, facts, a) && !EventsSettled(a)
    ensures EventsOf(ids, hash, facts, b) && b != a
  {
    hide GroupBy, Settled, EventFor;
    var g := GroupBy(EventKeys(ids, hash), facts);
    var v :| v in a && !Settled(v.provenance);
    var x :| 0 <= x < |a| && a[x] == v;
    var w := OtherEvent(g.of[g.keys[x]], g.keys[x], v);
    b := a[x := w];
    assert b[x] != a[x];
  }

  lemma OtherEvent(group: seq<Fact<RawEvent>>, id: string, a: Event) returns (b: Event)
    requires EventFor(group, id, a) && !Settled(a.provenance)
    ensures EventFor(group, id, b) && b != a
  {
    hide IsCanonical, Settled, Arrangement;
    var ys := Rearranged(UnionOf(Provenances(group)), a.provenance);
    b := a.(provenance := ys);
  }

  // ----- participations -----

  ghost predicate ParticipationsSettled(ps: seq<Participation>) { forall p :: p in ps ==> Settled(p.provenance) }

  lemma ParticipationIsUnique(ids: map<Ref, string>, hash: EventHash, facts: seq<Fact<RawEvent>>, a: Participation,
                              b: Participation)
    requires ParticipationFor(ids, hash, facts, a) && ParticipationFor(ids, hash, facts, b) && RoleOf(a) == RoleOf(b)
    requires Settled(a.provenance)
    ensures a == b
  {
    hide Takes, Settled;
    SettledIsUnique(SpanSet(a.provenance), a.provenance, b.provenance);
  }

  lemma OtherParticipation(ids: map<Ref, string>, hash: EventHash, facts: seq<Fact<RawEvent>>, a: Participation)
    returns (b: Participation)
    requires ParticipationFor(ids, hash, facts, a) && !Settled(a.provenance)
    ensures ParticipationFor(ids, hash, facts, b) && RoleOf(b) == RoleOf(a) && b != a
  {
    hide Takes, Settled, ChunkIds;
    var ys := Rearranged(SpanSet(a.provenance), a.provenance);
    SameSpansSameChunks(a.provenance, ys);
    b := a.(provenance := ys);
  }

  lemma ParticipationsAreUnique(ids: map<Ref, string>, hash: EventHash, facts: seq<Fact<RawEvent>>,
                                a: seq<Participation>, b: seq<Participation>)
    requires ParticipationsOf(ids, hash, facts, a) && ParticipationsOf(ids, hash, facts, b) && ParticipationsSettled(a)
    ensures a == b
  {
    hide Takes, Settled, ParticipationFor, RoleOrder;
    forall x | 0 <= x < |a| ensures a[x] == b[x] {
      assert a[x] in a;
      ParticipationIsUnique(ids, hash, facts, a[x], b[x]);
    }
  }

  lemma OtherParticipations(ids: map<Ref, string>, hash: EventHash, facts: seq<Fact<RawEvent>>, a: seq<Participation>)
    returns (b: seq<Participation>)
    requires ParticipationsOf(ids, hash, facts, a) && !ParticipationsSettled(a)
    ensures ParticipationsOf(ids, hash, facts, b) && b != a
  {
    hide Takes, Settled, ParticipationFor, RoleOrder;
    var p :| p in a && !Settled(p.provenance);
    var x :| 0 <= x < |a| && a[x] == p;
    var q := OtherParticipation(ids, hash, facts, p);
    b := a[x := q];
    assert b[x] != a[x];
    assert forall y :: 0 <= y < |a| ==> RoleOf(b[y]) == RoleOf(a[y]);
    forall f, k | f in facts && Takes(ids, hash, f, k)
      ensures exists y :: 0 <= y < |b| && (b[y].entity, b[y].event, b[y].role) == k
    {
      var y :| 0 <= y < |a| && (a[y].entity, a[y].event, a[y].role) == k;
      assert RoleOf(b[y]) == k;
    }
  }

  // ----- the constructed content -----

  /** No entity, relation, event or participation has two spans that tie. */
  ghost predicate AllSettled(c: ConstructedGraph) {
    && EntitiesSettled(c.entities) && RelationsSettled(c.relations)
    && EventsSettled(c.events) && ParticipationsSettled(c.participations)
  }

  ghost function ComponentsFrom(s: Setup, facts: seq<Fact<RawMention>>): seq<seq<Merge.Mention>> {
    Partition.ComponentsOf(s.lexicon, Partition.Ordered(s.sortKey, AsMentions(facts)))
  }

  lemma ContentIsUnique(s: Setup, facts: Collected, m: seq<Entity>, i: map<Ref, string>, c: ConstructedGraph,
                        n: seq<Entity>, j: map<Ref, string>, d: ConstructedGraph)
    requires EntityResolution.Anchored(AsMentions(facts.entities)) && AllSettled(c)
    requires ConstructedWith(s, facts, m, i, c) && ConstructedWith(s, facts, n, j, d)
    ensures c == d
  {
    hide ResolvedAs, RelationsOf, EventsOf, ParticipationsOf, Partition.ComponentsOf, Partition.Ordered;
    ComponentsAreAnchored(s.lexicon, s.sortKey, AsMentions(facts.entities));
    var components := ComponentsFrom(s, facts.entities);
    IdsAreUnique(s.entityId, components, m, c.entities, i, n, d.entities, j);
    EntitiesAreUnique(s.entityId, components, m, c.entities, i, n, d.entities, j);
    RelationsAreUnique(i, facts.relations, c.relations, d.relations);
    EventsAreUnique(i, s.eventId, facts.events, c.events, d.events);
    ParticipationsAreUnique(i, s.eventId, facts.events, c.participations, d.participations);
  }

  lemma OtherContent(s: Setup, facts: Collected, m: seq<Entity>, i: map<Ref, string>, c: ConstructedGraph)
    returns (n: seq<Entity>, d: ConstructedGraph)
    requires ConstructedWith(s, facts, m, i, c) && !AllSettled(c)
    ensures ConstructedWith(s, facts, n, i, d) && d != c
  {
    hide ResolvedAs, RelationsOf, EventsOf, ParticipationsOf, Partition.ComponentsOf, Partition.Ordered,
         EntitiesSettled, RelationsSettled, EventsSettled, ParticipationsSettled;
    n, d := m, c;
    if !EntitiesSettled(c.entities) {
      var es;
      n, es := OtherEntities(s.entityId, ComponentsFrom(s, facts.entities), m, c.entities, i);
      d := c.(entities := es);
    } else if !RelationsSettled(c.relations) {
      var rs := OtherRelations(i, facts.relations, c.relations);
      d := c.(relations := rs);
    } else if !EventsSettled(c.events) {
      var vs := OtherEvents(i, s.eventId, facts.events, c.events);
      d := c.(events := vs);
    } else {
      var ps := OtherParticipations(i, s.eventId, facts.events, c.participations);
      d := c.(participations := ps);
    }
  }

  /** The content made of given facts is one exactly when no two spans of one record tie. */
  lemma ConstructionIsUniqueIff(s: Setup, facts: Collected, c: ConstructedGraph)
    requires EntityResolution.Anchored(AsMentions(facts.entities)) && ConstructedFrom(s, facts, c)
    ensures (forall d :: ConstructedFrom(s, facts, d) ==> d == c) <==> AllSettled(c)
  {
    hide ConstructedWith, AllSettled;
    var m, i :| ConstructedWith(s, facts, m, i, c);
    if AllSettled(c) {
      forall d | ConstructedFrom(s, facts, d) ensures d == c {
        var n, j :| ConstructedWith(s, facts, n, j, d);
        ContentIsUnique(s, facts, m, i, c, n, j, d);
      }
    } else {
      var n, d := OtherContent(s, facts, m, i, c);
      assert ConstructedFrom(s, facts, d);
    }
  }

  // ----- windows and facts -----

  lemma SnapIsUnique(text: string, approx: nat, tolerance: nat, a: nat, b: nat)
    requires approx <= |text| && Segmentation.IsSnap(text, approx, tolerance, a)
    requires Segmentation.IsSnap(text, approx, tolerance, b)
    ensures a == b
  {
    hide Segmentation.Candidates;
    var cs := Segmentation.Candidates(text, approx, tolerance);
    if cs != [] { NearestIsUnique(cs, approx, a, b); }
  }

  lemma NearestIsUnique(cs: seq<nat>, approx: nat, a: nat, b: nat)
    requires Segmentation.IsNearest(cs, approx, a) && Segmentation.IsNearest(cs, approx, b)
    ensures a == b
  {
    hide Segmentation.Distance;
    var i :| 0 <= i < |cs| && cs[i] == a
      && (forall m :: 0 <= m < |cs| ==> Segmentation.Distance(a, approx) <= Segmentation.Distance(cs[m], approx))
      && (forall m :: 0 <= m < i ==> Segmentation.Distance(a, approx) < Segmentation.Distance(cs[m], approx));
    var j :| 0 <= j < |cs| && cs[j] == b
      && (forall m :: 0 <= m < |cs| ==> Segmentation.Distance(b, approx) <= Segmentation.Distance(cs[m], approx))
      && (forall m :: 0 <= m < j ==> Segmentation.Distance(b, approx) < Segmentation.Distance(cs[m], approx));
    assert i == j;
  }

  lemma WindowIsUnique(tk: Segmentation.Tokenizer, text: string, b: Segmentation.Budget, start: nat, v: (nat, nat),
                       w: (nat, nat))
    requires Segmentation.IsWindow(tk, text, b, start, v) && Segmentation.IsWindow(tk, text, b, start, w)
    ensures v == w
  {
    hide Segmentation.IsSnap, Segmentation.CharOffset, Segmentation.CountTokens, Segmentation.Kept;
    var total := Segmentation.CountTokens(tk, text);
    var end := Segmentation.EndToken(total, start, b);
    if end != total {
      var raw := Segmentation.CharOffset(tk, text, end);
      forall x: nat, y: nat
        | Segmentation.IsSnap(text, raw, b.tolerance, x) && Segmentation.IsSnap(text, raw, b.tolerance, y)
        ensures x == y
      {
        SnapIsUnique(text, raw, b.tolerance, x, y);
      }
    }
  }

  /** Cutting a text is a function of text, tokenizer and budget. */
  lemma WindowsAreUnique(tk: Segmentation.Tokenizer, text: string, b: Segmentation.Budget, vs: seq<(nat, nat)>,
                         ws: seq<(nat, nat)>)
    requires Segmentation.AreWindows(tk, text, b, vs) && Segmentation.AreWindows(tk, text, b, ws)
    ensures vs == ws
  {
    hide Segmentation.IsWindow, Segmentation.StartToken, Segmentation.CountTokens;
    if Segmentation.CountTokens(tk, text) > b.maxTokens {
      assert |vs| == |ws| by {
        assert Segmentation.StartToken(b, |vs| - 1) + b.maxTokens >= Segmentation.CountTokens(tk, text);
        assert Segmentation.StartToken(b, |ws| - 1) + b.maxTokens >= Segmentation.CountTokens(tk, text);
      }
      forall k | 0 <= k < |vs| ensures vs[k] == ws[k] {
        WindowIsUnique(tk, text, b, Segmentation.StartToken(b, k), vs[k], ws[k]);
      }
    }
  }

  lemma SegmentsAreUnique(tk: Segmentation.Tokenizer, text: string, patterns: seq<string -> seq<nat>>,
                          vs: seq<Segmentation.ExtractionWindow>, ws: seq<Segmentation.ExtractionWindow>)
    requires Segmentation.Segmented(tk, text, patterns, vs) && Segmentation.Segmented(tk, text, patterns, ws)
    ensures vs == ws
  {
    hide Segmentation.AreWindows, Segmentation.Chapters, Segmentation.FallbackNumbered, Segmentation.Flatten,
         Segmentation.Numbered;
    var cs := Segmentation.Chapters(text, patterns);
    if cs == [] {
      forall a, b
        | Segmentation.AreWindows(tk, text, Segmentation.FALLBACK, a)
          && Segmentation.AreWindows(tk, text, Segmentation.FALLBACK, b)
        ensures a == b
      {
        WindowsAreUnique(tk, text, Segmentation.FALLBACK, a, b);
      }
    } else {
      var ps :| Segmentation.SplitsOf(tk, text, cs, ps) && vs == Segmentation.Flatten(ps);
      var qs :| Segmentation.SplitsOf(tk, text, cs, qs) && ws == Segmentation.Flatten(qs);
      forall i | 0 <= i < |cs| ensures ps[i] == qs[i] { SplitIsUnique(tk, text, cs[i], ps[i], qs[i]); }
      assert ps == qs;
    }
  }

  lemma SplitIsUnique(tk: Segmentation.Tokenizer, text: string, c: Segmentation.ChapterSpan,
                      vs: seq<Segmentation.ExtractionWindow>, ws: seq<Segmentation.ExtractionWindow>)
    requires c.start <= c.end <= |text|
    requires Segmentation.IsSplit(tk, text, c, vs) && Segmentation.IsSplit(tk, text, c, ws)
    ensures vs == ws
  {
    hide Segmentation.AreWindows, Segmentation.Numbered;
    var span := text[c.start..c.end];
    var a :| Segmentation.AreWindows(tk, span, Segmentation.EXTRACTION, a) && vs == Segmentation.Numbered(c, a);
    var b :| Segmentation.AreWindows(tk, span, Segmentation.EXTRACTION, b) && ws == Segmentation.Numbered(c, b);
    WindowsAreUnique(tk, span, Segmentation.EXTRACTION, a, b);
  }

  lemma WindowFactsAreUnique<R>(config: Matching.ProvenanceConfig, facts: seq<Quoted<R>>,
                                w: Segmentation.ExtractionWindow, window: string, chunks: seq<Chunk>, a: seq<Fact<R>>,
                                b: seq<Fact<R>>)
    requires WindowFacts(config, facts, w, window, chunks, a) && WindowFacts(config, facts, w, window, chunks, b)
    ensures a == b
  {
    hide ResolutionOf, Kept;
    var os: seq<Resolution> :| |os| == |facts|
      && (forall i :: 0 <= i < |facts| ==> ResolutionOf(config, facts[i].quotes, window, w.start, chunks, os[i]))
      && a == Kept(facts, os, w);
    var rs: seq<Resolution> :| |rs| == |facts|
      && (forall i :: 0 <= i < |facts| ==> ResolutionOf(config, facts[i].quotes, window, w.start, chunks, rs[i]))
      && b == Kept(facts, rs, w);
    forall i | 0 <= i < |facts| ensures os[i] == rs[i] {
      FactResolutionIsUnique(config, facts[i].quotes, window, w.start, chunks, os[i], rs[i]);
    }
    assert os == rs;
  }

  lemma WindowAddsOnce(s: Setup, text: string, chunks: seq<Chunk>, w: Segmentation.ExtractionWindow,
                       before: Collected, a: Collected, b: Collected)
    requires w.start < w.end <= |text|
    requires WindowAdds(s, text, chunks, w, before, a) && WindowAdds(s, text, chunks, w, before, b)
    ensures a == b
  {
    hide WindowFacts;
    var window := text[w.start..w.end];
    var extraction := s.extract(window, w.chapter, w.window);
    if extraction.Ok? {
      var es, rs, vs :|
        && WindowFacts(s.config, extraction.value.entities, w, window, chunks, es)
        && WindowFacts(s.config, extraction.value.relations, w, window, chunks, rs)
        && WindowFacts(s.config, extraction.value.events, w, window, chunks, vs)
        && a == Collected(before.entities + es, before.relations + rs, before.events + vs);
      var fs, ts, us :|
        && WindowFacts(s.config, extraction.value.entities, w, window, chunks, fs)
        && WindowFacts(s.config, extraction.value.relations, w, window, chunks, ts)
        && WindowFacts(s.config, extraction.value.events, w, window, chunks, us)
        && b == Collected(before.entities + fs, before.relations + ts, before.events + us);
      WindowFactsAreUnique(s.config, extraction.value.entities, w, window, chunks, es, fs);
      WindowFactsAreUnique(s.config, extraction.value.relations, w, window, chunks, rs, ts);
      WindowFactsAreUnique(s.config, extraction.value.events, w, window, chunks, vs, us);
    }
  }

  /** The facts collected from the windows are a function of text, chunks and extractor. */
  lemma {:induction false} FactsAreUnique(s: Setup, text: string, chunks: seq<Chunk>,
                                          ws: seq<Segmentation.ExtractionWindow>, a: Collected, b: Collected)
    requires Gathered(s, text, chunks, ws, a) && Gathered(s, text, chunks, ws, b)
    ensures a == b
    decreases |ws|
  {
    hide WindowAdds;
    if ws != [] {
      var last, front := ws[|ws| - 1], ws[..|ws| - 1];
      var x :| Gathered(s, text, chunks, front, x) && WindowAdds(s, text, chunks, last, x, a);
      var y :| Gathered(s, text, chunks, front, y) && WindowAdds(s, text, chunks, last, y, b);
      FactsAreUnique(s, text, chunks, front, x, y);
      WindowAddsOnce(s, text, chunks, last, x, a, b);
    }
  }

  // ----- the whole construction -----

  lemma {:induction false} KeptHaveSpans<R>(config: Matching.ProvenanceConfig, facts: seq<Quoted<R>>,
                                            outcomes: seq<Resolution>, w: Segmentation.ExtractionWindow,
                                            window: string, chunks: seq<Chunk>, f: Fact<R>)
    requires |outcomes| == |facts| && f in Kept(facts, outcomes, w)
    requires forall i ::
      0 <= i < |facts| ==> ResolutionOf(config, facts[i].quotes, window, w.start, chunks, outcomes[i])
    ensures f.provenance != []
  {
    hide Provenance.Anchored, Matching.Resolves;
    var n := |facts| - 1;
    if f in Kept(facts[..n], outcomes[..n], w) {
      KeptHaveSpans(config, facts[..n], outcomes[..n], w, window, chunks, f);
    }
  }

  lemma AddedHaveSpans(s: Setup, text: string, chunks: seq<Chunk>, w: Segmentation.ExtractionWindow,
                       before: Collected, after: Collected, f: Fact<RawMention>)
    requires w.start < w.end <= |text| && WindowAdds(s, text, chunks, w, before, after)
    requires f in after.entities && f !in before.entities
    ensures f.provenance != []
  {
    hide WindowFacts;
    var window := text[w.start..w.end];
    var extraction := s.extract(window, w.chapter, w.window);
    var es, rs, vs :|
      && WindowFacts(s.config, extraction.value.entities, w, window, chunks, es)
      && WindowFacts(s.config, extraction.value.relations, w, window, chunks, rs)
      && WindowFacts(s.config, extraction.value.events, w, window, chunks, vs)
      && after == Collected(before.entities + es, before.relations + rs, before.events + vs);
    WindowFactsHaveSpans(s.config, extraction.value.entities, w, window, chunks, es, f);
  }

  lemma WindowFactsHaveSpans<R>(config: Matching.ProvenanceConfig, facts: seq<Quoted<R>>,
                                w: Segmentation.ExtractionWindow, window: string, chunks: seq<Chunk>,
                                out: seq<Fact<R>>, f: Fact<R>)
    requires WindowFacts(config, facts, w, window, chunks, out) && f in out
    ensures f.provenance != []
  {
    hide Kept, ResolutionOf;
    var outcomes: seq<Resolution> :| |outcomes| == |facts|
      && (forall i :: 0 <= i < |facts| ==> ResolutionOf(config, facts[i].quotes, window, w.start, chunks, outcomes[i]))
      && out == Kept(facts, outcomes, w);
    KeptHaveSpans(config, facts, outcomes, w, window, chunks, f);
  }

  /** Every collected fact has a span. */
  lemma {:induction false} CollectedHaveSpans(s: Setup, text: string, chunks: seq<Chunk>,
                                              ws: seq<Segmentation.ExtractionWindow>, facts: Collected,
                                              f: Fact<RawMention>)
    requires Gathered(s, text, chunks, ws, facts) && f in facts.entities
    ensures f.provenance != []
    decreases |ws|
  {
    hide WindowAdds;
    var last, front := ws[|ws| - 1], ws[..|ws| - 1];
    var before :| Gathered(s, text, chunks, front, before) && WindowAdds(s, text, chunks, last, before, facts);
    if f in before.entities {
      CollectedHaveSpans(s, text, chunks, front, before, f);
    } else {
      AddedHaveSpans(s, text, chunks, last, before, facts, f);
    }
  }

  /** The content built for a novel. */
  ghost predicate BuiltFor(s: Setup, text: string, chunks: seq<Chunk>, c: ConstructedGraph) {
    exists ws, facts ::
      && Segmentation.Segmented(s.tokenizer, text, s.patterns, ws)
      && Gathered(s, text, chunks, ws, facts) && ConstructedFrom(s, facts, c)
  }

  /** Building the graph of a novel has one result exactly when no record of it
      has two spans that share chunk and start. */
  lemma BuildIsDeterministicIff(s: Setup, text: string, chunks: seq<Chunk>, c: ConstructedGraph)
    requires BuiltFor(s, text, chunks, c)
    ensures (forall d :: BuiltFor(s, text, chunks, d) ==> d == c) <==> AllSettled(c)
  {
    hide Segmentation.Segmented, Gathered, ConstructedFrom, AllSettled;
    var ws, facts :|
      && Segmentation.Segmented(s.tokenizer, text, s.patterns, ws)
      && Gathered(s, text, chunks, ws, facts) && ConstructedFrom(s, facts, c);
    forall m | m in AsMentions(facts.entities) ensures m.provenance != [] {
      var i :| 0 <= i < |facts.entities| && AsMentions(facts.entities)[i] == m;
      CollectedHaveSpans(s, text, chunks, ws, facts, facts.entities[i]);
    }
    ConstructionIsUniqueIff(s, facts, c);
    forall d ensures BuiltFor(s, text, chunks, d) <==> ConstructedFrom(s, facts, d) {
      if vs, others :|
        && Segmentation.Segmented(s.tokenizer, text, s.patterns, vs)
        && Gathered(s, text, chunks, vs, others) && ConstructedFrom(s, others, d)
      {
        SegmentsAreUnique(s.tokenizer, text, s.patterns, vs, ws);
        FactsAreUnique(s, text, chunks, ws, others, facts);
      }
    }
  }

  // ----- the traversal graph -----

  /** No edge merged from parallel relations has two spans that tie. */
  ghost predicate EdgesSettled(relations: seq<Relation>, g: Graph) {
    var groups := GroupBy(SlotKeys(), relations);
    forall s :: s in g.edges && s in groups.of && |groups.of[s]| != 1 ==> Settled(g.edges[s].provenance)
  }

  lemma FirstByKindIsUnique(group: seq<Relation>, a: Relation, b: Relation)
    requires FirstByKind(group, a) && FirstByKind(group, b)
    ensures a == b
  {
    hide KindLe;
    var i :| 0 <= i < |group| && group[i] == a && (forall k :: 0 <= k < i ==> !KindLe(group[k], a))
      && (forall k :: 0 <= k < |group| ==> KindLe(a, group[k]));
    var j :| 0 <= j < |group| && group[j] == b && (forall k :: 0 <= k < j ==> !KindLe(group[k], b))
      && (forall k :: 0 <= k < |group| ==> KindLe(b, group[k]));
    assert KindLe(group[i], group[j]) && KindLe(group[j], group[i]);
  }

  lemma MergedIsUnique(group: seq<Relation>, a: Relation, b: Relation)
    requires Merged(group, a) && Merged(group, b) && (|group| != 1 ==> Settled(a.provenance))
    ensures a == b
  {
    hide FirstByKind, Settled, Arrangement, SumOf;
    if |group| != 1 {
      SettledIsUnique(UnionOf(RelationSpans(group)), a.provenance, b.provenance);
      forall c, d | FirstByKind(group, c) && FirstByKind(group, d) ensures c == d { FirstByKindIsUnique(group, c, d); }
    }
  }

  lemma OtherEdge(group: seq<Relation>, a: Relation) returns (b: Relation)
    requires Merged(group, a) && |group| != 1 && !Settled(a.provenance)
    ensures Merged(group, b) && b != a
  {
    hide FirstByKind, Settled, Arrangement, SumOf;
    var ys := Rearranged(UnionOf(RelationSpans(group)), a.provenance);
    b := a.(provenance := ys);
  }

  /** The traversal graph of given records is one exactly when no merged edge has two spans that tie. */
  lemma GraphIsUniqueIff(entities: seq<Entity>, relations: seq<Relation>, g: Graph)
    requires Assembled(entities, relations, g)
    ensures (forall h :: Assembled(entities, relations, h) ==> h == g) <==> EdgesSettled(relations, g)
  {
    hide GroupBy, Merged, LastById, Settled;
    if EdgesSettled(relations, g) {
      forall h | Assembled(entities, relations, h) ensures h == g {
        forall s | s in g.edges ensures g.edges[s] == h.edges[s] {
          MergedIsUnique(GroupBy(SlotKeys(), relations).of[s], g.edges[s], h.edges[s]);
        }
        assert g.edges == h.edges;
      }
    } else {
      var s :| s in g.edges && |GroupBy(SlotKeys(), relations).of[s]| != 1 && !Settled(g.edges[s].provenance);
      var e := OtherEdge(GroupBy(SlotKeys(), relations).of[s], g.edges[s]);
      var h := g.(edges := g.edges[s := e]);
      assert h.edges[s] != g.edges[s];
      assert Assembled(entities, relations, h);
    }
  }
}
