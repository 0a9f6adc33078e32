/** What `build_graph` makes of facts, said of their references, spans and fields. */
module GraphFacts {
  import opened Schemas
  import opened Grouping
  import opened Provenance
  import opened EntityGraphs
  import opened Construction
  import Order

  // ----- relations -----

  /** The entity a window-local name of the fact stands for. */
  predicate Names<R>(ids: map<Ref, string>, f: Fact<R>, localId: string, entity: string) {
    var ref := Ref(f.chapter, f.window, localId);
    ref in ids && ids[ref] == entity
  }

  predicate Unknown<R>(ids: map<Ref, string>, f: Fact<R>, localId: string) {
    Ref(f.chapter, f.window, localId) !in ids
  }

  /** The fact's own subject, object and type are those of the edge. */
  predicate Tells(ids: map<Ref, string>, f: Fact<RawRelation>, subject: string, obj: string, kind: string) {
    Names(ids, f, f.raw.subject, subject) && Names(ids, f, f.raw.obj, obj) && f.raw.kind == kind && subject != obj
  }

  lemma ClassifiedIs(ids: map<Ref, string>, f: Fact<RawRelation>, subject: string, obj: string, kind: string)
    ensures Classified(ids, f).0 == Some((subject, obj, kind)) <==> Tells(ids, f, subject, obj, kind)
  {
  }

  /** Every relation is told by some fact, subject as subject and object as
      object; its spans are those of exactly the facts that tell it, and it weighs
      the number of chunks they name. */
  lemma RelationIsTold(ids: map<Ref, string>, facts: seq<Fact<RawRelation>>, relations: seq<Relation>, x: nat)
    requires RelationsOf(ids, facts, relations) && x < |relations|
    ensures var r := relations[x];
      && (exists f :: f in facts && Tells(ids, f, r.subject, r.obj, r.kind))
      && (forall sp :: sp in r.provenance <==>
            exists f :: f in facts && Tells(ids, f, r.subject, r.obj, r.kind) && sp in f.provenance)
      && r.weight == |set sp | sp in r.provenance :: sp.chunkId|
  {
    hide RelationsOf, Classified, Tells;
    var r := relations[x];
    RelationIsSound(ids, facts, relations, x);
    forall f: Fact<RawRelation>
      ensures Classified(ids, f).0 == Some((r.subject, r.obj, r.kind)) <==> Tells(ids, f, r.subject, r.obj, r.kind)
    {
      ClassifiedIs(ids, f, r.subject, r.obj, r.kind);
    }
  }

  predicate Joins(r: Relation, subject: string, obj: string, kind: string) {
    r.subject == subject && r.obj == obj && r.kind == kind
  }

  /** Whatever a fact tells is a relation, once. */
  lemma ToldIsRelation(ids: map<Ref, string>, facts: seq<Fact<RawRelation>>, relations: seq<Relation>,
                       f: Fact<RawRelation>, subject: string, obj: string, kind: string)
    requires RelationsOf(ids, facts, relations) && f in facts && Tells(ids, f, subject, obj, kind)
    ensures exists x :: 0 <= x < |relations| && Joins(relations[x], subject, obj, kind)
    ensures forall x, y | 0 <= x < y < |relations| ::
      !(Joins(relations[x], subject, obj, kind) && Joins(relations[y], subject, obj, kind))
  {
    hide RelationsOf, Classified, RejectedRelations;
    ClassifiedIs(ids, f, subject, obj, kind);
    RelationFactUsedOnce(ids, facts, relations, f);
    var x :| 0 <= x < |relations| && HasEnds((subject, obj, kind), relations[x]);
    assert Joins(relations[x], subject, obj, kind);
    forall y, z | 0 <= y < z < |relations|
      ensures !(Joins(relations[y], subject, obj, kind) && Joins(relations[z], subject, obj, kind))
    {
      assert !HasEnds((relations[y].subject, relations[y].obj, relations[y].kind), relations[z]);
    }
  }

  /** Why a relation fact is quarantined: an end is unknown, or both ends are one entity. */
  lemma QuarantinedIff(ids: map<Ref, string>, facts: seq<Fact<RawRelation>>, f: Fact<RawRelation>)
    requires f in facts
    ensures Rejection(f, Dangling) in RejectedRelations(ids, facts) <==>
      Unknown(ids, f, f.raw.subject) || Unknown(ids, f, f.raw.obj)
    ensures Rejection(f, SelfRelation) in RejectedRelations(ids, facts) <==>
      exists e :: Names(ids, f, f.raw.subject, e) && Names(ids, f, f.raw.obj, e)
  {
    hide Filter, Classified;
    var out := Filter(Unkeyed(EdgeKeys(ids)), facts);
    FilterMembers(Unkeyed(EdgeKeys(ids)), facts, f);
    var rejected := RejectedRelations(ids, facts);
    if f in out {
      var i :| 0 <= i < |out| && out[i] == f;
      assert rejected[i] == Rejection(f, Classified(ids, f).1);
    }
    forall reason | Rejection(f, reason) in rejected ensures f in out && reason == Classified(ids, f).1 {
      var i :| 0 <= i < |rejected| && rejected[i] == Rejection(f, reason);
      assert out[i] == f;
    }
    WhyRejected(ids, f);
  }

  lemma WhyRejected(ids: map<Ref, string>, f: Fact<RawRelation>)
    ensures Classified(ids, f).0.None? && Classified(ids, f).1 == Dangling <==>
      Unknown(ids, f, f.raw.subject) || Unknown(ids, f, f.raw.obj)
    ensures Classified(ids, f).0.None? && Classified(ids, f).1 == SelfRelation <==>
      exists e :: Names(ids, f, f.raw.subject, e) && Names(ids, f, f.raw.obj, e)
  {
    if Classified(ids, f).0.None? && Classified(ids, f).1 == SelfRelation {
      var e := ids[Ref(f.chapter, f.window, f.raw.subject)];
      assert Names(ids, f, f.raw.subject, e) && Names(ids, f, f.raw.obj, e);
    }
  }

  // ----- events -----

  /** The participants of the fact, resolved one by one, with their roles. */
  ghost predicate Cast(ids: map<Ref, string>, f: Fact<RawEvent>, ps: seq<Participant>) {
    && |ps| == |f.raw.participants|
    && forall i :: 0 <= i < |ps| ==>
         Names(ids, f, f.raw.participants[i].0, ps[i].0) && ps[i].1 == f.raw.participants[i].1
  }

  /** The list holds the participants' ids in ascending order, each as often as it takes part. */
  ghost predicate SortedIds(ps: seq<Participant>, sorted: seq<string>) {
    && (forall i, j :: 0 <= i < j < |sorted| ==> sorted[i] == sorted[j] || Order.Earlier(sorted[i], sorted[j]))
    && forall e :: multiset(sorted)[e] == |set i | 0 <= i < |ps| && ps[i].0 == e|
  }

  /** `id` is the hash of the fact's predicate, its sorted participants and where its first span starts. */
  ghost predicate HasEventId(ids: map<Ref, string>, hash: EventHash, f: Fact<RawEvent>, id: string) {
    exists ps, sorted :: Cast(ids, f, ps) && SortedIds(ps, sorted) && f.provenance != []
      && id == hash(f.raw.predicateName, sorted, f.provenance[0].chunkId, f.provenance[0].start)
  }

  lemma {:induction false} ResolvedIsCast(ids: map<Ref, string>, f: Fact<RawEvent>, raw: seq<Participant>)
    ensures var r := ResolvedParticipants(ids, f, raw);
      && (r.None? <==> exists i :: 0 <= i < |raw| && Unknown(ids, f, raw[i].0))
      && (r.Some? ==> |r.value| == |raw| && forall i :: 0 <= i < |raw| ==>
            Names(ids, f, raw[i].0, r.value[i].0) && r.value[i].1 == raw[i].1)
  {
    if raw != [] {
      var front, last := raw[..|raw| - 1], raw[|raw| - 1];
      ResolvedIsCast(ids, f, front);
      var r := ResolvedParticipants(ids, f, front);
      if r.None? {
        var i :| 0 <= i < |front| && Unknown(ids, f, front[i].0);
        assert Unknown(ids, f, raw[i].0);
      } else {
        forall i | 0 <= i < |front| ensures !Unknown(ids, f, front[i].0) { }
        assert raw[|raw| - 1] == last;
      }
    }
  }

  /** An event fact is quarantined exactly when one of its participants is unknown. */
  lemma EventQuarantinedIff(ids: map<Ref, string>, hash: EventHash, facts: seq<Fact<RawEvent>>, f: Fact<RawEvent>)
    requires f in facts
    ensures Rejection(f, Dangling) in RejectedEvents(ids, hash, facts) <==>
      exists i :: 0 <= i < |f.raw.participants| && Unknown(ids, f, f.raw.participants[i].0)
  {
    hide Filter, ResolvedParticipants, IdOf;
    ResolvedIsCast(ids, f, f.raw.participants);
    var out := Filter(Unkeyed(EventKeys(ids, hash)), facts);
    FilterMembers(Unkeyed(EventKeys(ids, hash)), facts, f);
    var rejected := RejectedEvents(ids, hash, facts);
    if f in out {
      var i :| 0 <= i < |out| && out[i] == f;
      assert rejected[i] == Rejection(f, Dangling);
    }
    if Rejection(f, Dangling) in rejected {
      var i :| 0 <= i < |rejected| && rejected[i] == Rejection(f, Dangling);
      assert out[i] == f;
    }
  }

  lemma SortedNames(ps: seq<Participant>)
    ensures SortedIds(ps, Order.SortBy(Construction.Names(ps), Order.StrLe))
  {
    hide Order.StrLe, Order.SortBy, Order.Earlier;
    var names := Construction.Names(ps);
    Order.StrLeIsTotalOrder();
    Order.SortByCorrect(names, Order.StrLe);
    var sorted := Order.SortBy(names, Order.StrLe);
    forall i, j | 0 <= i < j < |sorted| ensures sorted[i] == sorted[j] || Order.Earlier(sorted[i], sorted[j]) {
      Order.StrLeIsEarlier(sorted[i], sorted[j]);
    }
    forall e ensures multiset(sorted)[e] == |set i | 0 <= i < |ps| && ps[i].0 == e| { NamesCounted(ps, e); }
  }

  lemma {:induction false} NamesCounted(ps: seq<Participant>, e: string)
    ensures multiset(Construction.Names(ps))[e] == |set i | 0 <= i < |ps| && ps[i].0 == e|
  {
    if ps != [] {
      var n := |ps| - 1;
      NamesCounted(ps[..n], e);
      assert Construction.Names(ps) == Construction.Names(ps[..n]) + [ps[n].0];
      var last := if ps[n].0 == e then {n} else {};
      assert (set i | 0 <= i < |ps| && ps[i].0 == e) == (set i | 0 <= i < n && ps[..n][i].0 == e) + last;
    }
  }

  lemma CastIsOne(ids: map<Ref, string>, f: Fact<RawEvent>, a: seq<Participant>, b: seq<Participant>)
    requires Cast(ids, f, a) && Cast(ids, f, b)
    ensures a == b
  {
    forall i | 0 <= i < |a| ensures a[i] == b[i] {
      assert Names(ids, f, f.raw.participants[i].0, a[i].0) && Names(ids, f, f.raw.participants[i].0, b[i].0);
    }
  }

  lemma SortedIdsAreOne(ps: seq<Participant>, a: seq<string>, b: seq<string>)
    requires SortedIds(ps, a) && SortedIds(ps, b)
    ensures a == b
  {
    hide Order.StrLe, Order.Earlier;
    Order.StrLeIsTotalOrder();
    forall i, j | 0 <= i < j < |a| ensures Order.StrLe(a[i], a[j]) { Order.StrLeIsEarlier(a[i], a[j]); }
    forall i, j | 0 <= i < j < |b| ensures Order.StrLe(b[i], b[j]) { Order.StrLeIsEarlier(b[i], b[j]); }
    assert multiset(a) == multiset(b);
    forall x, y | x in a && y in a && Order.StrLe(x, y) && Order.StrLe(y, x) ensures x == y {
      Order.StrLeAntisymmetric(x, y);
    }
    Order.SortedIsUnique(a, b, Order.StrLe);
  }

  lemma EventOfIs(ids: map<Ref, string>, hash: EventHash, f: Fact<RawEvent>, id: string)
    requires f.provenance != []
    ensures EventOf(ids, hash, f) == Some(id) <==> HasEventId(ids, hash, f, id)
  {
    hide ResolvedParticipants, Order.SortBy, Names, SortedIds, Order.StrLe;
    ResolvedIsCast(ids, f, f.raw.participants);
    var r := ResolvedParticipants(ids, f, f.raw.participants);
    if r.Some? {
      SortedNames(r.value);
      assert Cast(ids, f, r.value);
      if HasEventId(ids, hash, f, id) {
        var ps, sorted :| Cast(ids, f, ps) && SortedIds(ps, sorted) && f.provenance != []
          && id == hash(f.raw.predicateName, sorted, f.provenance[0].chunkId, f.provenance[0].start);
        CastIsOne(ids, f, ps, r.value);
        SortedIdsAreOne(ps, sorted, Order.SortBy(Construction.Names(r.value), Order.StrLe));
      }
    } else {
      var i :| 0 <= i < |f.raw.participants| && Unknown(ids, f, f.raw.participants[i].0);
      forall ps ensures !Cast(ids, f, ps) { NoCast(ids, f, ps, i); }
    }
  }

  lemma NoCast(ids: map<Ref, string>, f: Fact<RawEvent>, ps: seq<Participant>, i: nat)
    requires i < |f.raw.participants| && Unknown(ids, f, f.raw.participants[i].0)
    ensures !Cast(ids, f, ps)
  {
  }

  /** `c` is not after `f`: by chapter, then window with a whole chapter first, then local id. */
  predicate NotAfter(c: Fact<RawEvent>, f: Fact<RawEvent>) {
    || c.chapter < f.chapter
    || (c.chapter == f.chapter && c.window.None? && f.window.Some?)
    || (c.chapter == f.chapter && c.window.Some? && f.window.Some? && c.window.value < f.window.value)
    || (c.chapter == f.chapter && c.window == f.window
        && (c.raw.localId == f.raw.localId || Order.Earlier(c.raw.localId, f.raw.localId)))
  }

  lemma FactLeIs(c: Fact<RawEvent>, f: Fact<RawEvent>)
    ensures FactLe(c, f) <==> NotAfter(c, f)
  {
    hide Order.StrLe, Order.Earlier;
    Order.StrLeIsEarlier(c.raw.localId, f.raw.localId);
  }

  /** An event's wording is that of one of its facts, not after any other of them,
      and its spans are those of exactly its facts. */
  lemma EventIsWorded(ids: map<Ref, string>, hash: EventHash, facts: seq<Fact<RawEvent>>, events: seq<Event>, x: nat)
    requires EventsOf(ids, hash, facts, events) && x < |events| && forall f :: f in facts ==> f.provenance != []
    ensures var v := events[x]; exists c ::
      && c in facts && HasEventId(ids, hash, c, v.id)
      && (forall f :: f in facts && HasEventId(ids, hash, f, v.id) ==> NotAfter(c, f))
      && v.predicateName == c.raw.predicateName
      && (match c.raw.temporal
          case Some(t) => v.kind == t.0 && v.expression == t.1
          case None => v.kind == "NONE" && v.expression == None)
    ensures forall sp :: sp in events[x].provenance <==>
      exists f :: f in facts && HasEventId(ids, hash, f, events[x].id) && sp in f.provenance
  {
    hide GroupBy, EventOf, HasEventId, FactLe, Arrangement, NotAfter;
    var key, v := EventKeys(ids, hash), events[x];
    var g := GroupBy(key, facts);
    GroupsAreTidy(key, facts);
    var id := g.keys[x];
    var group := g.of[id];
    EventHasId(group, id, v);
    forall f: Fact<RawEvent>
      ensures f in group <==> f in facts && HasEventId(ids, hash, f, id)
    {
      GroupMembers(key, facts, id, f);
      if f in facts { EventOfIs(ids, hash, f, id); }
    }
    var c := CanonicalOf(group, id, v);
    forall f | f in facts && HasEventId(ids, hash, f, id) ensures NotAfter(c, f) {
      assert f in group;
      FactLeIs(c, f);
    }
    forall sp ensures sp in v.provenance <==> exists f :: f in group && sp in f.provenance {
      EventSpans(group, id, v, sp);
    }
  }

  lemma CanonicalOf(group: seq<Fact<RawEvent>>, id: string, v: Event) returns (c: Fact<RawEvent>)
    requires EventFor(group, id, v)
    ensures c in group && forall f :: f in group ==> FactLe(c, f)
    ensures v.predicateName == c.raw.predicateName
    ensures match c.raw.temporal
            case Some(t) => v.kind == t.0 && v.expression == t.1
            case None => v.kind == "NONE" && v.expression == None
  {
    hide Arrangement, FactLe;
    c :| IsCanonical(group, c)
      && v.predicateName == c.raw.predicateName
      && v.kind == (if c.raw.temporal.Some? then c.raw.temporal.value.0 else "NONE")
      && v.expression == (if c.raw.temporal.Some? then c.raw.temporal.value.1 else None);
  }

  lemma EventSpans(group: seq<Fact<RawEvent>>, id: string, v: Event, sp: Span)
    requires EventFor(group, id, v)
    ensures sp in v.provenance <==> exists f :: f in group && sp in f.provenance
  {
    hide IsCanonical;
    UnionMembers(group, sp);
    if f :| f in group && sp in f.provenance { var i :| 0 <= i < |group| && group[i] == f; }
  }

  // ----- participations -----

  /** The fact has the entity take the role in the event. */
  ghost predicate Plays(ids: map<Ref, string>, hash: EventHash, f: Fact<RawEvent>, entity: string, event: string,
                        role: string)
  {
    HasEventId(ids, hash, f, event) && exists i :: 0 <= i < |f.raw.participants| && PlaysAt(ids, f, i, entity, role)
  }

  predicate PlaysAt(ids: map<Ref, string>, f: Fact<RawEvent>, i: nat, entity: string, role: string)
    requires i < |f.raw.participants|
  {
    Names(ids, f, f.raw.participants[i].0, entity) && f.raw.participants[i].1 == role
  }

  lemma TakesIs(ids: map<Ref, string>, hash: EventHash, f: Fact<RawEvent>, k: RoleKey)
    requires f.provenance != []
    ensures Takes(ids, hash, f, k) <==> Plays(ids, hash, f, k.0, k.1, k.2)
  {
    hide ResolvedParticipants, IdOf, HasEventId;
    EventOfIs(ids, hash, f, k.1);
    ResolvedIsCast(ids, f, f.raw.participants);
    var r := ResolvedParticipants(ids, f, f.raw.participants);
    if r.Some? {
      var ps := r.value;
      if (k.0, k.2) in ps {
        var i :| 0 <= i < |ps| && ps[i] == (k.0, k.2);
        assert PlaysAt(ids, f, i, k.0, k.2);
      }
      if i :| 0 <= i < |f.raw.participants| && PlaysAt(ids, f, i, k.0, k.2) { assert ps[i] == (k.0, k.2); }
    }
  }

  /** There is a participation of an entity in an event under a role exactly when
      some fact has it so, and then with exactly the spans of those facts. */
  lemma ParticipationIff(ids: map<Ref, string>, hash: EventHash, facts: seq<Fact<RawEvent>>, ps: seq<Participation>,
                         entity: string, event: string, role: string)
    requires ParticipationsOf(ids, hash, facts, ps) && forall f :: f in facts ==> f.provenance != []
    ensures (exists x :: 0 <= x < |ps| && (ps[x].entity, ps[x].event, ps[x].role) == (entity, event, role)) <==>
      exists f :: f in facts && Plays(ids, hash, f, entity, event, role)
    ensures forall x, sp ::
      0 <= x < |ps| && (ps[x].entity, ps[x].event, ps[x].role) == (entity, event, role) ==>
        (sp in ps[x].provenance <==>
           exists f :: f in facts && Plays(ids, hash, f, entity, event, role) && sp in f.provenance)
  {
    hide Takes, Plays, RoleOrder;
    var k := (entity, event, role);
    forall f | f in facts ensures Takes(ids, hash, f, k) <==> Plays(ids, hash, f, entity, event, role) {
      TakesIs(ids, hash, f, k);
    }
    forall x | 0 <= x < |ps| && (ps[x].entity, ps[x].event, ps[x].role) == k
      ensures ParticipationFor(ids, hash, facts, ps[x]) { }
  }

  // ----- order of spans -----

  /** Sorted spans: by chunk id, and within a chunk by where they start. */
  lemma SpansAscend(s: set<Span>, xs: seq<Span>, i: nat, j: nat)
    requires Arrangement(s, xs) && i < j < |xs|
    ensures Order.Earlier(xs[i].chunkId, xs[j].chunkId)
      || (xs[i].chunkId == xs[j].chunkId && xs[i].start <= xs[j].start)
  {
    hide Order.StrLe, Order.Earlier;
    Order.StrLeIsEarlier(xs[i].chunkId, xs[j].chunkId);
    assert SpanLe(xs[i], xs[j]);
  }
}
