/** Assembling resolved facts into relations, events and participations, with
    quarantine of dangling references (`lncvs.graph.construction.service`). */
module Construction {
  import opened Schemas
  import opened Grouping
  import opened Provenance
  import opened EntityGraphs
  import Order

  /** A window-local reference. */
  datatype Ref = Ref(chapter: nat, window: Option<nat>, localId: string)

  /** A raw fact of one window with its resolved spans, of which there is at least one. */
  datatype Fact<R> = Fact(raw: R, chapter: nat, window: Option<nat>, provenance: seq<Span>)

  datatype RawRelation = RawRelation(subject: string, obj: string, kind: string)

  datatype Reason = Dangling | SelfRelation

  datatype Rejection<R> = Rejection(fact: Fact<R>, reason: Reason)

  /** `resolve_local_id` */
  function Lookup<R>(ids: map<Ref, string>, f: Fact<R>, localId: string): Option<string> {
    var r := Ref(f.chapter, f.window, localId);
    if r in ids then Some(ids[r]) else None
  }

  // ----- _dedupe_provenance -----

  function UnionOf(lists: seq<seq<Span>>): set<Span> {
    set i, s | 0 <= i < |lists| && s in lists[i] :: s
  }

  function Provenances<R>(facts: seq<Fact<R>>): seq<seq<Span>> {
    seq(|facts|, i requires 0 <= i < |facts| => facts[i].provenance)
  }

  function ChunkIds(spans: seq<Span>): set<string> { set s | s in spans :: s.chunkId }

  lemma UnionMembers<R>(facts: seq<Fact<R>>, sp: Span)
    ensures sp in UnionOf(Provenances(facts)) <==> exists i :: 0 <= i < |facts| && sp in facts[i].provenance
  {
    var lists := Provenances(facts);
    if i :| 0 <= i < |lists| && sp in lists[i] { assert sp in facts[i].provenance; }
    if i :| 0 <= i < |facts| && sp in facts[i].provenance { assert sp in lists[i]; }
  }

  /** `tuple(sorted(set, key=...))`, whatever order the set is iterated in. */
  method Arrange(s: set<Span>) returns (xs: seq<Span>)
    ensures Arrangement(s, xs)
  {
    hide Order.SortBy;
    xs := [];
    var todo := s;
    while todo != {}
      invariant todo <= s && Order.NoDuplicates(xs)
      invariant forall x :: x in xs <==> x in s - todo
    {
      var x :| x in todo;
      assert x !in xs;
      xs := xs + [x];
      todo := todo - {x};
    }
    SpanLeIsTotal();
    Order.SortByCorrect(xs, SpanLe);
    Order.SortedNoDuplicates(xs, SpanLe);
    xs := Order.SortBy(xs, SpanLe);
  }

  // ----- _build_relations -----

  type EdgeKey = (string, string, string)

  /** The edge a relation fact contributes to, or why it is quarantined. */
  function Classified(ids: map<Ref, string>, f: Fact<RawRelation>): (Option<EdgeKey>, Reason) {
    var s, o := Lookup(ids, f, f.raw.subject), Lookup(ids, f, f.raw.obj);
    if s.None? || o.None? then (None, Dangling)
    else if s == o then (None, SelfRelation)
    else (Some((s.value, o.value, f.raw.kind)), Dangling)
  }

  function EdgeKeys(ids: map<Ref, string>): Fact<RawRelation> -> Option<EdgeKey> { f => Classified(ids, f).0 }

  function RejectedRelations(ids: map<Ref, string>, facts: seq<Fact<RawRelation>>): seq<Rejection<RawRelation>> {
    var out := Filter(Unkeyed(EdgeKeys(ids)), facts);
    seq(|out|, i requires 0 <= i < |out| => Rejection(out[i], Classified(ids, out[i]).1))
  }

  predicate HasEnds(k: EdgeKey, r: Relation) { (r.subject, r.obj, r.kind) == k }

  /** `r` is the edge of key `k` built from the facts `group`. */
  ghost predicate EdgeFor(group: seq<Fact<RawRelation>>, k: EdgeKey, r: Relation) {
    && HasEnds(k, r)
    && Arrangement(UnionOf(Provenances(group)), r.provenance)
    && r.weight == |ChunkIds(r.provenance)|
  }

  ghost predicate EdgesFor(g: Groups<EdgeKey, Fact<RawRelation>>, keys: seq<EdgeKey>, relations: seq<Relation>) {
    && |relations| == |keys|
    && forall x :: 0 <= x < |keys| ==> keys[x] in g.of && EdgeFor(g.of[keys[x]], keys[x], relations[x])
  }

  /** The relations of a list of facts: one per edge key, in order of first appearance. */
  ghost predicate RelationsOf(ids: map<Ref, string>, facts: seq<Fact<RawRelation>>, relations: seq<Relation>) {
    var g := GroupBy(EdgeKeys(ids), facts);
    EdgesFor(g, g.keys, relations)
  }

  method BuildRelations(ids: map<Ref, string>, facts: seq<Fact<RawRelation>>)
    returns (relations: seq<Relation>, rejected: seq<Rejection<RawRelation>>)
    ensures RelationsOf(ids, facts, relations)
    ensures rejected == RejectedRelations(ids, facts)
  {
    hide EdgeFor;
    var groups: Groups<EdgeKey, Fact<RawRelation>>;
    groups, rejected := GroupRelations(ids, facts);
    GroupsAreTidy(EdgeKeys(ids), facts);
    relations := [];
    for x := 0 to |groups.keys|
      invariant EdgesFor(groups, groups.keys[..x], relations)
    {
      var k := groups.keys[x];
      assert k in groups.of;
      var r := MakeRelation(groups.of[k], k, ids, facts);
      relations := relations + [r];
    }
    assert groups.keys[..|groups.keys|] == groups.keys;
  }

  method GroupRelations(ids: map<Ref, string>, facts: seq<Fact<RawRelation>>)
    returns (groups: Groups<EdgeKey, Fact<RawRelation>>, rejected: seq<Rejection<RawRelation>>)
    ensures groups == GroupBy(EdgeKeys(ids), facts)
    ensures rejected == RejectedRelations(ids, facts)
  {
    hide Filter, GroupBy;
    GroupNone(EdgeKeys(ids));
    groups, rejected := Groups([], map[]), [];
    for i := 0 to |facts|
      invariant groups == GroupBy(EdgeKeys(ids), facts[..i])
      invariant rejected == RejectedRelations(ids, facts[..i])
    {
      var fact := facts[i];
      GroupNext(EdgeKeys(ids), facts, i);
      FilterAppend(Unkeyed(EdgeKeys(ids)), facts[..i], fact);
      assert facts[..i + 1] == facts[..i] + [fact];
      var subject := Lookup(ids, fact, fact.raw.subject);
      var obj := Lookup(ids, fact, fact.raw.obj);
      if subject.None? || obj.None? {
        rejected := rejected + [Rejection(fact, Dangling)];
      } else if subject == obj {
        rejected := rejected + [Rejection(fact, SelfRelation)];
      } else {
        groups := Put(groups, (subject.value, obj.value, fact.raw.kind), fact);
      }
    }
    assert facts[..|facts|] == facts;
  }

  method MakeRelation(group: seq<Fact<RawRelation>>, k: EdgeKey, ghost ids: map<Ref, string>,
                      ghost facts: seq<Fact<RawRelation>>)
    returns (r: Relation)
    requires Tidy(GroupBy(EdgeKeys(ids), facts))
    requires k in GroupBy(EdgeKeys(ids), facts).of && group == GroupBy(EdgeKeys(ids), facts).of[k]
    ensures EdgeFor(group, k, r)
  {
    hide Arrangement;
    assert group != [];
    var provenance := Arrange(UnionOf(Provenances(group)));
    GroupMembers(EdgeKeys(ids), facts, k, group[0]);
    r := Relation(k.0, k.1, group[0].raw.kind, |ChunkIds(provenance)|, provenance);
  }

  /** Every relation joins two different entities that some window-local name
      resolved to, and its provenance is that of exactly the facts on its key. */
  lemma RelationIsSound(ids: map<Ref, string>, facts: seq<Fact<RawRelation>>, relations: seq<Relation>, x: nat)
    requires RelationsOf(ids, facts, relations) && x < |relations|
    ensures var r := relations[x];
      && r.subject != r.obj && r.subject in ids.Values && r.obj in ids.Values
      && r.weight == |ChunkIds(r.provenance)|
      && (exists f :: f in facts && Classified(ids, f).0 == Some((r.subject, r.obj, r.kind)))
      && forall sp :: sp in r.provenance <==>
           exists f :: f in facts && Classified(ids, f).0 == Some((r.subject, r.obj, r.kind)) && sp in f.provenance
  {
    hide Filter, GroupBy;
    var key, r := EdgeKeys(ids), relations[x];
    var g := GroupBy(key, facts);
    GroupsAreTidy(key, facts);
    var k := g.keys[x];
    var group := g.of[k];
    GroupMembers(key, facts, k, group[0]);
    assert Classified(ids, group[0]).0 == Some(k);
    forall sp ensures sp in r.provenance <==>
      exists f :: f in facts && Classified(ids, f).0 == Some((r.subject, r.obj, r.kind)) && sp in f.provenance
    {
      SpanOnEdge(ids, facts, k, group, r, sp);
    }
  }

  lemma SpanOnEdge(ids: map<Ref, string>, facts: seq<Fact<RawRelation>>, k: EdgeKey, group: seq<Fact<RawRelation>>,
                   r: Relation, sp: Span)
    requires k in GroupBy(EdgeKeys(ids), facts).of && group == GroupBy(EdgeKeys(ids), facts).of[k]
      && EdgeFor(group, k, r)
    ensures sp in r.provenance <==> exists f :: f in facts && Classified(ids, f).0 == Some(k) && sp in f.provenance
  {
    hide GroupBy, Classified;
    UnionMembers(group, sp);
    if sp in r.provenance {
      var i :| 0 <= i < |group| && sp in group[i].provenance;
      GroupMembers(EdgeKeys(ids), facts, k, group[i]);
    }
    if f :| f in facts && Classified(ids, f).0 == Some(k) && sp in f.provenance {
      GroupMembers(EdgeKeys(ids), facts, k, f);
      var i :| 0 <= i < |group| && group[i] == f;
    }
  }

  /** Every relation fact is quarantined or contributes to exactly one relation;
      counted with multiplicity nothing is lost. */
  lemma RelationFactUsedOnce(ids: map<Ref, string>, facts: seq<Fact<RawRelation>>, relations: seq<Relation>,
                             f: Fact<RawRelation>)
    requires RelationsOf(ids, facts, relations) && f in facts
    ensures Classified(ids, f).0.None? <==>
      exists i :: 0 <= i < |RejectedRelations(ids, facts)| && RejectedRelations(ids, facts)[i].fact == f
    ensures Classified(ids, f).0.Some? ==>
      exists x :: 0 <= x < |relations| && HasEnds(Classified(ids, f).0.value, relations[x])
    ensures forall x, y :: 0 <= x < y < |relations| ==>
      !HasEnds((relations[x].subject, relations[x].obj, relations[x].kind), relations[y])
  {
    hide Filter, GroupBy, Classified, Arrangement;
    var key := EdgeKeys(ids);
    var g := GroupBy(key, facts);
    GroupsAreTidy(key, facts);
    FilterMembers(Unkeyed(key), facts, f);
    var out := Filter(Unkeyed(key), facts);
    if f in out {
      var i :| 0 <= i < |out| && out[i] == f;
      assert RejectedRelations(ids, facts)[i].fact == f;
    }
    if i :| 0 <= i < |RejectedRelations(ids, facts)| && RejectedRelations(ids, facts)[i].fact == f {
      assert out[i] == f;
    }
    if key(f).Some? {
      GroupMembers(key, facts, key(f).value, f);
      var x :| 0 <= x < |g.keys| && g.keys[x] == key(f).value;
      assert HasEnds(g.keys[x], relations[x]);
    }
  }

  /** Group sizes and quarantined facts add up to the facts given. */
  lemma RelationFactsConserved(ids: map<Ref, string>, facts: seq<Fact<RawRelation>>)
    ensures var g := GroupBy(EdgeKeys(ids), facts);
      && Tidy(g)
      && TotalOf(One, g.of, g.keys) + |RejectedRelations(ids, facts)| as real == |facts| as real
  {
    NothingLost(One, EdgeKeys(ids), facts);
    SumOfOnes(facts);
    SumOfOnes(Filter(Unkeyed(EdgeKeys(ids)), facts));
  }

  function One<V>(v: V): real { 1.0 }

  lemma {:induction false} SumOfOnes<V>(xs: seq<V>)
    ensures SumOf(One, xs) == |xs| as real
  {
    if xs != [] { SumOfOnes(xs[..|xs| - 1]); }
  }

  // ----- _build_events -----

  type Participant = (string, string)

  datatype RawEvent = RawEvent(localId: string, predicateName: string, participants: seq<Participant>,
                               temporal: Option<(string, Option<string>)>)

  datatype Event = Event(id: string, predicateName: string, kind: string, expression: Option<string>,
                         provenance: seq<Span>)

  datatype Participation = Participation(entity: string, event: string, role: string, weight: nat,
                                         provenance: seq<Span>)

  /** The content hash `make_event_id` of a predicate, sorted participants and an anchor. */
  type EventHash = (string, seq<string>, string, nat) -> string

  /** The participants up to the first dangling one, and whether there is one. */
  function ResolvedParticipants(ids: map<Ref, string>, f: Fact<RawEvent>,
                                ps: seq<Participant>): Option<seq<Participant>> {
    if ps == [] then Some([])
    else
      var front := ResolvedParticipants(ids, f, ps[..|ps| - 1]);
      var last := ps[|ps| - 1];
      var id := Lookup(ids, f, last.0);
      if front.None? || id.None? then None else Some(front.value + [(id.value, last.1)])
  }

  method ResolveParticipants(ids: map<Ref, string>, f: Fact<RawEvent>) returns (r: Option<seq<Participant>>)
    ensures r == ResolvedParticipants(ids, f, f.raw.participants)
  {
    var ps := f.raw.participants;
    var resolved: seq<Participant> := [];
    for i := 0 to |ps|
      invariant ResolvedParticipants(ids, f, ps[..i]) == Some(resolved)
    {
      assert ps[..i + 1][..i] == ps[..i];
      var id := Lookup(ids, f, ps[i].0);
      if id.None? {
        StaysDangling(ids, f, ps, i + 1);
        return None;
      }
      resolved := resolved + [(id.value, ps[i].1)];
    }
    assert ps[..|ps|] == ps;
    return Some(resolved);
  }

  lemma {:induction false} StaysDangling(ids: map<Ref, string>, f: Fact<RawEvent>, ps: seq<Participant>, i: nat)
    requires i <= |ps| && ResolvedParticipants(ids, f, ps[..i]).None?
    ensures ResolvedParticipants(ids, f, ps).None?
    decreases |ps| - i
  {
    if i == |ps| {
      assert ps[..i] == ps;
    } else {
      assert ps[..i + 1][..i] == ps[..i];
      StaysDangling(ids, f, ps, i + 1);
    }
  }

  function Names(ps: seq<Participant>): seq<string> { seq(|ps|, i requires 0 <= i < |ps| => ps[i].0) }

  function AnchorOf(f: Fact<RawEvent>): Span {
    if f.provenance == [] then Span("", 0, 0) else f.provenance[0]
  }

  function IdOf(hash: EventHash, f: Fact<RawEvent>, ps: seq<Participant>): string {
    hash(f.raw.predicateName, Order.SortBy(Names(ps), Order.StrLe), AnchorOf(f).chunkId, AnchorOf(f).start)
  }

  /** The event a fact contributes to; none when a participant dangles. */
  function EventOf(ids: map<Ref, string>, hash: EventHash, f: Fact<RawEvent>): Option<string> {
    var ps := ResolvedParticipants(ids, f, f.raw.participants);
    if ps.None? then None else Some(IdOf(hash, f, ps.value))
  }

  function EventKeys(ids: map<Ref, string>, hash: EventHash): Fact<RawEvent> -> Option<string> {
    f => EventOf(ids, hash, f)
  }

  function RejectedEvents(ids: map<Ref, string>, hash: EventHash,
                          facts: seq<Fact<RawEvent>>): seq<Rejection<RawEvent>> {
    var out := Filter(Unkeyed(EventKeys(ids, hash)), facts);
    seq(|out|, i requires 0 <= i < |out| => Rejection(out[i], Dangling))
  }

  method GroupEvents(ids: map<Ref, string>, hash: EventHash, facts: seq<Fact<RawEvent>>)
    returns (groups: Groups<string, Fact<RawEvent>>, rejected: seq<Rejection<RawEvent>>)
    requires forall f :: f in facts ==> f.provenance != []
    ensures groups == GroupBy(EventKeys(ids, hash), facts)
    ensures rejected == RejectedEvents(ids, hash, facts)
  {
    hide ResolvedParticipants, Filter, GroupBy;
    GroupNone(EventKeys(ids, hash));
    groups, rejected := Groups([], map[]), [];
    for i := 0 to |facts|
      invariant groups == GroupBy(EventKeys(ids, hash), facts[..i])
      invariant rejected == RejectedEvents(ids, hash, facts[..i])
    {
      var fact := facts[i];
      GroupNext(EventKeys(ids, hash), facts, i);
      FilterAppend(Unkeyed(EventKeys(ids, hash)), facts[..i], fact);
      assert facts[..i + 1] == facts[..i] + [fact];
      var resolved := ResolveParticipants(ids, fact);
      if resolved.None? {
        rejected := rejected + [Rejection(fact, Dangling)];
      } else {
        var anchor := fact.provenance[0];
        var id := hash(fact.raw.predicateName, Order.SortBy(Names(resolved.value), Order.StrLe), anchor.chunkId,
                       anchor.start);
        groups := Put(groups, id, fact);
      }
    }
    assert facts[..|facts|] == facts;
  }

  /** `_fact_sort_key`: chapter, window with none first, local id. */
  predicate FactLe(a: Fact<RawEvent>, b: Fact<RawEvent>) {
    var i, j := if a.window.None? then -1 else a.window.value, if b.window.None? then -1 else b.window.value;
    if a.chapter != b.chapter then a.chapter < b.chapter
    else if i != j then i < j
    else Order.StrLe(a.raw.localId, b.raw.localId)
  }

  lemma FactLeIsTotal()
    ensures Order.TotalPreorder(FactLe)
  {
    forall x, y ensures FactLe(x, y) || FactLe(y, x) { Order.StrLeTotal(x.raw.localId, y.raw.localId); }
    forall x, y, z | FactLe(x, y) && FactLe(y, z) ensures FactLe(x, z) {
      if Order.StrLe(x.raw.localId, y.raw.localId) && Order.StrLe(y.raw.localId, z.raw.localId) {
        Order.StrLeTransitive(x.raw.localId, y.raw.localId, z.raw.localId);
      }
    }
  }

  /** `c` is the first of the facts least in `_fact_sort_key`. */
  ghost predicate IsCanonical(group: seq<Fact<RawEvent>>, c: Fact<RawEvent>) {
    exists at :: 0 <= at < |group| && group[at] == c
      && (forall k :: 0 <= k < at ==> !FactLe(group[k], c))
      && (forall k :: 0 <= k < |group| ==> FactLe(c, group[k]))
  }

  /** `min(facts, key=_fact_sort_key)` */
  method LeastFact(group: seq<Fact<RawEvent>>) returns (c: Fact<RawEvent>)
    requires group != []
    ensures IsCanonical(group, c)
  {
    FactLeIsTotal();
    ghost var at := Order.HeadIsFirst(group, FactLe);
    c := Order.SortBy(group, FactLe)[0];
    assert group[at] == c;
  }

  /** `e` is the event `id` built from the facts `group`: wording of the canonical fact, spans of all. */
  ghost predicate EventFor(group: seq<Fact<RawEvent>>, id: string, e: Event) {
    && e.id == id
    && Arrangement(UnionOf(Provenances(group)), e.provenance)
    && exists c :: IsCanonical(group, c)
         && e.predicateName == c.raw.predicateName
         && e.kind == (if c.raw.temporal.Some? then c.raw.temporal.value.0 else "NONE")
         && e.expression == (if c.raw.temporal.Some? then c.raw.temporal.value.1 else None)
  }

  ghost predicate EventsFor(g: Groups<string, Fact<RawEvent>>, keys: seq<string>, events: seq<Event>) {
    && |events| == |keys|
    && forall x :: 0 <= x < |keys| ==> keys[x] in g.of && EventFor(g.of[keys[x]], keys[x], events[x])
  }

  method MakeEvent(group: seq<Fact<RawEvent>>, id: string) returns (e: Event)
    requires group != []
    ensures EventFor(group, id, e)
  {
    hide Arrangement, IsCanonical;
    var canonical := LeastFact(group);
    var provenance := Arrange(UnionOf(Provenances(group)));
    var temporal := canonical.raw.temporal;
    e := Event(id, canonical.raw.predicateName,
               if temporal.Some? then temporal.value.0 else "NONE",
               if temporal.Some? then temporal.value.1 else None, provenance);
  }

  // ----- participations -----

  type RoleKey = (string, string, string)

  /** One participant of one fact of one event. */
  datatype Taking = Taking(key: RoleKey, fact: Fact<RawEvent>)

  function RoleKeys(): Taking -> Option<RoleKey> { (t: Taking) => Some(t.key) }

  ghost predicate Takes(ids: map<Ref, string>, hash: EventHash, f: Fact<RawEvent>, k: RoleKey) {
    && EventOf(ids, hash, f) == Some(k.1)
    && (k.0, k.2) in ResolvedParticipants(ids, f, f.raw.participants).value
  }

  /** The participants of one fact, in its order. */
  function TakingsFor(id: string, f: Fact<RawEvent>, ps: seq<Participant>): seq<Taking> {
    seq(|ps|, i requires 0 <= i < |ps| => Taking((ps[i].0, id, ps[i].1), f))
  }

  /** Those of a group, fact by fact. */
  function GroupTakings(ids: map<Ref, string>, id: string, group: seq<Fact<RawEvent>>): seq<Taking> {
    if group == [] then []
    else
      var last := group[|group| - 1];
      var ps := ResolvedParticipants(ids, last, last.raw.participants);
      GroupTakings(ids, id, group[..|group| - 1]) + if ps.None? then [] else TakingsFor(id, last, ps.value)
  }

  /** Those of the listed events, event by event. */
  function TakingsOf(ids: map<Ref, string>, g: Groups<string, Fact<RawEvent>>, keys: seq<string>): seq<Taking> {
    if keys == [] then []
    else
      var last := keys[|keys| - 1];
      TakingsOf(ids, g, keys[..|keys| - 1]) + if last in g.of then GroupTakings(ids, last, g.of[last]) else []
  }

  /** The (entity, event, role) triples in the order the code first meets them. */
  function RoleOrder(ids: map<Ref, string>, hash: EventHash, facts: seq<Fact<RawEvent>>): seq<RoleKey> {
    var g := GroupBy(EventKeys(ids, hash), facts);
    GroupBy(RoleKeys(), TakingsOf(ids, g, g.keys)).keys
  }

  lemma {:induction false} GroupTakingsMembers(ids: map<Ref, string>, hash: EventHash, id: string,
                                               group: seq<Fact<RawEvent>>, t: Taking)
    requires forall f :: f in group ==> EventOf(ids, hash, f) == Some(id)
    ensures t in GroupTakings(ids, id, group) <==> t.fact in group && Takes(ids, hash, t.fact, t.key) && t.key.1 == id
  {
    hide ResolvedParticipants, IdOf;
    if group != [] {
      var front, last := group[..|group| - 1], group[|group| - 1];
      assert group == front + [last] && last in group;
      GroupTakingsMembers(ids, hash, id, front, t);
      var ps := ResolvedParticipants(ids, last, last.raw.participants).value;
      TakingsForMembers(id, last, ps, t);
    }
  }

  lemma TakingsForMembers(id: string, f: Fact<RawEvent>, ps: seq<Participant>, t: Taking)
    ensures t in TakingsFor(id, f, ps) <==> t.fact == f && t.key.1 == id && (t.key.0, t.key.2) in ps
  {
    if t.fact == f && t.key.1 == id && (t.key.0, t.key.2) in ps {
      var i :| 0 <= i < |ps| && ps[i] == (t.key.0, t.key.2);
      assert TakingsFor(id, f, ps)[i] == t;
    }
  }

  lemma {:induction false} TakingsOfMembers(ids: map<Ref, string>, hash: EventHash, facts: seq<Fact<RawEvent>>,
                                            keys: seq<string>, t: Taking)
    requires var g := GroupBy(EventKeys(ids, hash), facts); forall id :: id in keys ==> id in g.of
    ensures t in TakingsOf(ids, GroupBy(EventKeys(ids, hash), facts), keys) <==>
      t.fact in facts && t.key.1 in keys && Takes(ids, hash, t.fact, t.key)
  {
    hide GroupBy, GroupTakings, Takes;
    var g := GroupBy(EventKeys(ids, hash), facts);
    if keys != [] {
      var front, id := keys[..|keys| - 1], keys[|keys| - 1];
      assert keys == front + [id];
      TakingsOfMembers(ids, hash, facts, front, t);
      forall f ensures f in g.of[id] <==> f in facts && EventOf(ids, hash, f) == Some(id) {
        GroupMembers(EventKeys(ids, hash), facts, id, f);
      }
      GroupTakingsMembers(ids, hash, id, g.of[id], t);
      TakesItsEvent(ids, hash, t.fact, t.key);
    }
  }

  lemma TakesItsEvent(ids: map<Ref, string>, hash: EventHash, f: Fact<RawEvent>, k: RoleKey)
    ensures Takes(ids, hash, f, k) ==> EventOf(ids, hash, f) == Some(k.1)
  {
  }

  lemma TakingsAreAll(ids: map<Ref, string>, hash: EventHash, facts: seq<Fact<RawEvent>>)
    ensures var g := GroupBy(EventKeys(ids, hash), facts); AllTakings(ids, hash, facts, TakingsOf(ids, g, g.keys))
  {
    hide GroupBy, Takes, EventOf;
    var g := GroupBy(EventKeys(ids, hash), facts);
    GroupsAreTidy(EventKeys(ids, hash), facts);
    forall t ensures t in TakingsOf(ids, g, g.keys) <==> t.fact in facts && Takes(ids, hash, t.fact, t.key) {
      TakingsOfMembers(ids, hash, facts, g.keys, t);
      TakesItsEvent(ids, hash, t.fact, t.key);
      GroupMembers(EventKeys(ids, hash), facts, t.key.1, t.fact);
    }
  }

  method AddParticipants(ids: map<Ref, string>, id: string, f: Fact<RawEvent>, byKey0: Groups<RoleKey, Taking>,
                         ghost takings0: seq<Taking>) returns (byKey: Groups<RoleKey, Taking>)
    requires ResolvedParticipants(ids, f, f.raw.participants).Some?
    requires byKey0 == GroupBy(RoleKeys(), takings0)
    ensures byKey == GroupBy(RoleKeys(),
                             takings0 + TakingsFor(id, f, ResolvedParticipants(ids, f, f.raw.participants).value))
  {
    hide ResolvedParticipants, GroupBy;
    byKey := byKey0;
    var r := ResolveParticipants(ids, f);
    var ps := r.value;
    assert takings0 + TakingsFor(id, f, ps[..0]) == takings0;
    for i := 0 to |ps|
      invariant byKey == GroupBy(RoleKeys(), takings0 + TakingsFor(id, f, ps[..i]))
    {
      var t := Taking((ps[i].0, id, ps[i].1), f);
      ghost var before, after := takings0 + TakingsFor(id, f, ps[..i]), takings0 + TakingsFor(id, f, ps[..i + 1]);
      assert after == before + [t];
      GroupNext(RoleKeys(), after, |before|);
      assert after[..|before|] == before && after[..|before| + 1] == after;
      byKey := Put(byKey, t.key, t);
    }
    assert ps[..|ps|] == ps;
  }

  method AddGroup(ids: map<Ref, string>, ghost hash: EventHash, id: string, group: seq<Fact<RawEvent>>,
                  byKey0: Groups<RoleKey, Taking>, ghost takings0: seq<Taking>)
    returns (byKey: Groups<RoleKey, Taking>)
    requires forall f :: f in group ==> EventOf(ids, hash, f) == Some(id)
    requires byKey0 == GroupBy(RoleKeys(), takings0)
    ensures byKey == GroupBy(RoleKeys(), takings0 + GroupTakings(ids, id, group))
  {
    hide ResolvedParticipants, IdOf, GroupBy, TakingsFor;
    byKey := byKey0;
    assert takings0 + GroupTakings(ids, id, group[..0]) == takings0;
    for i := 0 to |group|
      invariant byKey == GroupBy(RoleKeys(), takings0 + GroupTakings(ids, id, group[..i]))
    {
      assert group[i] in group;
      ghost var before := takings0 + GroupTakings(ids, id, group[..i]);
      ghost var more := TakingsFor(id, group[i], ResolvedParticipants(ids, group[i], group[i].raw.participants).value);
      assert group[..i + 1][..i] == group[..i];
      assert before + more == takings0 + GroupTakings(ids, id, group[..i + 1]);
      byKey := AddParticipants(ids, id, group[i], byKey, before);
    }
    assert group[..|group|] == group;
  }

  /** `p` gathers the spans of exactly the facts in which its entity takes its role in its event. */
  ghost predicate ParticipationFor(ids: map<Ref, string>, hash: EventHash, facts: seq<Fact<RawEvent>>,
                                   p: Participation) {
    var k := (p.entity, p.event, p.role);
    && (exists f :: f in facts && Takes(ids, hash, f, k))
    && Order.NoDuplicates(p.provenance) && Order.Sorted(p.provenance, SpanLe)
    && p.weight == |ChunkIds(p.provenance)|
    && forall sp :: sp in p.provenance <==> exists f :: f in facts && Takes(ids, hash, f, k) && sp in f.provenance
  }

  function RoleOf(p: Participation): RoleKey { (p.entity, p.event, p.role) }

  /** One participation per event, entity and role some fact names, and no other,
      in the order the code first meets them. */
  ghost predicate ParticipationsOf(ids: map<Ref, string>, hash: EventHash, facts: seq<Fact<RawEvent>>,
                                   ps: seq<Participation>) {
    && |ps| == |RoleOrder(ids, hash, facts)|
    && (forall x :: 0 <= x < |ps| ==> RoleOf(ps[x]) == RoleOrder(ids, hash, facts)[x])
    && (forall x :: 0 <= x < |ps| ==> ParticipationFor(ids, hash, facts, ps[x]))
    && (forall x, y ::
      0 <= x < y < |ps| ==> (ps[x].entity, ps[x].event, ps[x].role) != (ps[y].entity, ps[y].event, ps[y].role))
    && (forall f, k :: f in facts && Takes(ids, hash, f, k) ==>
          exists x :: 0 <= x < |ps| && (ps[x].entity, ps[x].event, ps[x].role) == k)
  }

  ghost predicate AllTakings(ids: map<Ref, string>, hash: EventHash, facts: seq<Fact<RawEvent>>, takings: seq<Taking>) {
    forall t :: t in takings <==> t.fact in facts && Takes(ids, hash, t.fact, t.key)
  }

  method CollectTakings(ids: map<Ref, string>, ghost hash: EventHash, groups: Groups<string, Fact<RawEvent>>,
                        ghost facts: seq<Fact<RawEvent>>) returns (byKey: Groups<RoleKey, Taking>)
    requires groups == GroupBy(EventKeys(ids, hash), facts) && Tidy(groups)
    ensures byKey == GroupBy(RoleKeys(), TakingsOf(ids, groups, groups.keys))
  {
    hide GroupBy, GroupTakings, EventOf;
    GroupNone(RoleKeys());
    byKey := Groups([], map[]);
    for x := 0 to |groups.keys|
      invariant byKey == GroupBy(RoleKeys(), TakingsOf(ids, groups, groups.keys[..x]))
    {
      var id := groups.keys[x];
      assert id in groups.of;
      forall f | f in groups.of[id] ensures EventOf(ids, hash, f) == Some(id) {
        GroupMembers(EventKeys(ids, hash), facts, id, f);
      }
      assert groups.keys[..x + 1][..x] == groups.keys[..x];
      byKey := AddGroup(ids, hash, id, groups.of[id], byKey, TakingsOf(ids, groups, groups.keys[..x]));
    }
    assert groups.keys[..|groups.keys|] == groups.keys;
  }

  function TakingSpans(group: seq<Taking>): seq<seq<Span>> {
    seq(|group|, i requires 0 <= i < |group| => group[i].fact.provenance)
  }

  method BuildParticipations(byKey: Groups<RoleKey, Taking>, ghost takings: seq<Taking>, ghost ids: map<Ref, string>,
                             ghost hash: EventHash, ghost facts: seq<Fact<RawEvent>>)
    returns (ps: seq<Participation>)
    requires byKey == GroupBy(RoleKeys(), takings) && AllTakings(ids, hash, facts, takings)
    requires byKey.keys == RoleOrder(ids, hash, facts)
    ensures ParticipationsOf(ids, hash, facts, ps)
  {
    hide GroupBy, Takes, ParticipationFor, Arrangement, AllTakings, RoleOrder;
    GroupsAreTidy(RoleKeys(), takings);
    ps := [];
    for x := 0 to |byKey.keys|
      invariant |ps| == x
      invariant forall y :: 0 <= y < x ==> ParticipationFor(ids, hash, facts, ps[y])
      invariant forall y :: 0 <= y < x ==> (ps[y].entity, ps[y].event, ps[y].role) == byKey.keys[y]
    {
      var k := byKey.keys[x];
      assert k in byKey.of;
      var provenance := Arrange(UnionOf(TakingSpans(byKey.of[k])));
      var p := Participation(k.0, k.1, k.2, |ChunkIds(provenance)|, provenance);
      ParticipationSpans(ids, hash, facts, takings, byKey.of[k], p);
      ps := ps + [p];
    }
    forall f, k | f in facts && Takes(ids, hash, f, k)
      ensures exists x :: 0 <= x < |ps| && (ps[x].entity, ps[x].event, ps[x].role) == k
    {
      TakingIsGrouped(ids, hash, facts, takings, f, k);
      var x :| 0 <= x < |byKey.keys| && byKey.keys[x] == k;
    }
  }

  lemma TakingIsGrouped(ids: map<Ref, string>, hash: EventHash, facts: seq<Fact<RawEvent>>, takings: seq<Taking>,
                        f: Fact<RawEvent>, k: RoleKey)
    requires AllTakings(ids, hash, facts, takings) && f in facts && Takes(ids, hash, f, k)
    ensures k in GroupBy(RoleKeys(), takings).of && Taking(k, f) in GroupBy(RoleKeys(), takings).of[k]
  {
    hide GroupBy, Takes;
    var t := Taking(k, f);
    assert t in takings <==> t.fact in facts && Takes(ids, hash, t.fact, t.key);
    GroupMembers(RoleKeys(), takings, k, t);
  }

  lemma ParticipationSpans(ids: map<Ref, string>, hash: EventHash, facts: seq<Fact<RawEvent>>, takings: seq<Taking>,
                           group: seq<Taking>, p: Participation)
    requires AllTakings(ids, hash, facts, takings)
    requires var k := (p.entity, p.event, p.role);
      k in GroupBy(RoleKeys(), takings).of && group == GroupBy(RoleKeys(), takings).of[k]
    requires Arrangement(UnionOf(TakingSpans(group)), p.provenance) && p.weight == |ChunkIds(p.provenance)|
    ensures ParticipationFor(ids, hash, facts, p)
  {
    hide GroupBy, Takes;
    var k := (p.entity, p.event, p.role);
    GroupsAreTidy(RoleKeys(), takings);
    forall t: Taking ensures t in group <==> t.key == k && t.fact in facts && Takes(ids, hash, t.fact, k) {
      GroupMembers(RoleKeys(), takings, k, t);
      assert t in takings <==> t.fact in facts && Takes(ids, hash, t.fact, t.key);
    }
    assert group[0] in group;
    forall sp ensures sp in p.provenance <==> exists f :: f in facts && Takes(ids, hash, f, k) && sp in f.provenance {
      var lists := TakingSpans(group);
      if sp in UnionOf(lists) {
        var i :| 0 <= i < |lists| && sp in lists[i];
        assert group[i] in group && sp in group[i].fact.provenance;
      }
      if f :| f in facts && Takes(ids, hash, f, k) && sp in f.provenance {
        assert Taking(k, f) in group;
        var i :| 0 <= i < |group| && group[i] == Taking(k, f);
        assert sp in lists[i];
      }
    }
  }

  /** What `_build_events` makes of a list of facts. */
  ghost predicate EventsOf(ids: map<Ref, string>, hash: EventHash, facts: seq<Fact<RawEvent>>, events: seq<Event>) {
    var g := GroupBy(EventKeys(ids, hash), facts);
    EventsFor(g, g.keys, events)
  }

  method BuildEvents(ids: map<Ref, string>, hash: EventHash, facts: seq<Fact<RawEvent>>)
    returns (events: seq<Event>, participations: seq<Participation>, rejected: seq<Rejection<RawEvent>>)
    requires forall f :: f in facts ==> f.provenance != []
    ensures EventsOf(ids, hash, facts, events)
    ensures ParticipationsOf(ids, hash, facts, participations)
    ensures rejected == RejectedEvents(ids, hash, facts)
  {
    hide GroupBy, EventFor, ParticipationsOf;
    var groups: Groups<string, Fact<RawEvent>>;
    groups, rejected := GroupEvents(ids, hash, facts);
    GroupsAreTidy(EventKeys(ids, hash), facts);
    events := [];
    for x := 0 to |groups.keys|
      invariant EventsFor(groups, groups.keys[..x], events)
    {
      var id := groups.keys[x];
      assert id in groups.of;
      var e := MakeEvent(groups.of[id], id);
      events := events + [e];
    }
    assert groups.keys[..|groups.keys|] == groups.keys;
    var byKey := CollectTakings(ids, hash, groups, facts);
    TakingsAreAll(ids, hash, facts);
    participations := BuildParticipations(byKey, TakingsOf(ids, groups, groups.keys), ids, hash, facts);
  }

  predicate Holds<R>(spans: seq<Span>, f: Fact<R>) { forall sp :: sp in f.provenance ==> sp in spans }

  /** Every event fact is quarantined, and that exactly when a participant
      dangles, or belongs to exactly one event, whose spans include its own. */
  lemma EventFactUsedOnce(ids: map<Ref, string>, hash: EventHash, facts: seq<Fact<RawEvent>>, events: seq<Event>,
                          f: Fact<RawEvent>)
    requires EventsOf(ids, hash, facts, events) && f in facts
    ensures EventOf(ids, hash, f).None? <==>
      exists i :: 0 <= i < |RejectedEvents(ids, hash, facts)| && RejectedEvents(ids, hash, facts)[i].fact == f
    ensures EventOf(ids, hash, f).Some? ==>
      exists x :: 0 <= x < |events| && Some(events[x].id) == EventOf(ids, hash, f) && Holds(events[x].provenance, f)
    ensures forall x, y :: 0 <= x < y < |events| ==> events[x].id != events[y].id
  {
    hide Filter, GroupBy, EventOf;
    var key := EventKeys(ids, hash);
    var g := GroupBy(key, facts);
    GroupsAreTidy(key, facts);
    FilterMembers(Unkeyed(key), facts, f);
    var out := Filter(Unkeyed(key), facts);
    if f in out {
      var i :| 0 <= i < |out| && out[i] == f;
      assert RejectedEvents(ids, hash, facts)[i].fact == f;
    }
    if i :| 0 <= i < |RejectedEvents(ids, hash, facts)| && RejectedEvents(ids, hash, facts)[i].fact == f {
      assert out[i] == f;
    }
    if key(f).Some? {
      GroupMembers(key, facts, key(f).value, f);
      var x :| 0 <= x < |g.keys| && g.keys[x] == key(f).value;
      var group := g.of[g.keys[x]];
      assert EventFor(group, g.keys[x], events[x]);
      var i :| 0 <= i < |group| && group[i] == f;
      forall sp | sp in f.provenance ensures sp in events[x].provenance { UnionMembers(group, sp); }
      assert Holds(events[x].provenance, f);
    }
  }

  lemma SpanOfEvent(ids: map<Ref, string>, hash: EventHash, facts: seq<Fact<RawEvent>>, id: string,
                    group: seq<Fact<RawEvent>>, e: Event, sp: Span)
    requires id in GroupBy(EventKeys(ids, hash), facts).of && group == GroupBy(EventKeys(ids, hash), facts).of[id]
    requires EventFor(group, id, e)
    ensures sp in e.provenance <==> exists f :: f in facts && EventOf(ids, hash, f) == Some(id) && sp in f.provenance
  {
    hide GroupBy, EventOf;
    UnionMembers(group, sp);
    if sp in e.provenance {
      var i :| 0 <= i < |group| && sp in group[i].provenance;
      GroupMembers(EventKeys(ids, hash), facts, id, group[i]);
    }
    if f :| f in facts && EventOf(ids, hash, f) == Some(id) && sp in f.provenance {
      GroupMembers(EventKeys(ids, hash), facts, id, f);
      var i :| 0 <= i < |group| && group[i] == f;
    }
  }

  /** Every event comes from some fact, and its provenance is that of exactly its facts. */
  lemma EventIsSound(ids: map<Ref, string>, hash: EventHash, facts: seq<Fact<RawEvent>>, events: seq<Event>, x: nat)
    requires EventsOf(ids, hash, facts, events) && x < |events|
    ensures exists f :: f in facts && EventOf(ids, hash, f) == Some(events[x].id)
    ensures forall sp :: sp in events[x].provenance <==>
      exists f :: f in facts && EventOf(ids, hash, f) == Some(events[x].id) && sp in f.provenance
  {
    hide GroupBy, EventOf, EventFor;
    var key := EventKeys(ids, hash);
    var g := GroupBy(key, facts);
    GroupsAreTidy(key, facts);
    var id := g.keys[x];
    assert EventFor(g.of[id], id, events[x]);
    EventHasId(g.of[id], id, events[x]);
    GroupMembers(key, facts, id, g.of[id][0]);
    forall sp ensures sp in events[x].provenance <==>
      exists f :: f in facts && EventOf(ids, hash, f) == Some(events[x].id) && sp in f.provenance
    {
      SpanOfEvent(ids, hash, facts, id, g.of[id], events[x], sp);
    }
  }

  lemma EventHasId(group: seq<Fact<RawEvent>>, id: string, e: Event)
    requires EventFor(group, id, e)
    ensures e.id == id
  {
  }

  lemma {:induction false} ParticipantIsResolved(ids: map<Ref, string>, f: Fact<RawEvent>, ps: seq<Participant>,
                                                 p: Participant)
    requires ResolvedParticipants(ids, f, ps).Some? && p in ResolvedParticipants(ids, f, ps).value
    ensures p.0 in ids.Values
  {
    var front, last := ps[..|ps| - 1], ps[|ps| - 1];
    if p in ResolvedParticipants(ids, f, front).value { ParticipantIsResolved(ids, f, front, p); }
  }

  /** Every participation is of an entity some window-local name resolved to and
      of one of the events, whose spans include its own. */
  lemma ParticipationIsSound(ids: map<Ref, string>, hash: EventHash, facts: seq<Fact<RawEvent>>, events: seq<Event>,
                             ps: seq<Participation>, x: nat)
    requires EventsOf(ids, hash, facts, events) && ParticipationsOf(ids, hash, facts, ps) && x < |ps|
    ensures ps[x].entity in ids.Values && ps[x].weight == |ChunkIds(ps[x].provenance)|
    ensures exists y :: 0 <= y < |events| && events[y].id == ps[x].event
              && forall sp :: sp in ps[x].provenance ==> sp in events[y].provenance
  {
    hide GroupBy, ResolvedParticipants, IdOf, EventsOf;
    var p := ps[x];
    var k := (p.entity, p.event, p.role);
    assert ParticipationFor(ids, hash, facts, p);
    var f :| f in facts && Takes(ids, hash, f, k);
    ParticipantIsResolved(ids, f, f.raw.participants, (p.entity, p.role));
    EventFactUsedOnce(ids, hash, facts, events, f);
    var y :| 0 <= y < |events| && Some(events[y].id) == EventOf(ids, hash, f);
    EventIsSound(ids, hash, facts, events, y);
  }

  /** Event sizes and quarantined facts add up to the facts given. */
  lemma EventFactsConserved(ids: map<Ref, string>, hash: EventHash, facts: seq<Fact<RawEvent>>)
    ensures var g := GroupBy(EventKeys(ids, hash), facts);
      && Tidy(g)
      && TotalOf(One, g.of, g.keys) + |RejectedEvents(ids, hash, facts)| as real == |facts| as real
  {
    NothingLost(One, EventKeys(ids, hash), facts);
    SumOfOnes(facts);
    SumOfOnes(Filter(Unkeyed(EventKeys(ids, hash)), facts));
  }

  ghost predicate InjectiveHash(hash: EventHash) {
    forall p, ps, c, n, q, qs, d, m :: hash(p, ps, c, n) == hash(q, qs, d, m) ==> p == q && ps == qs && c == d && n == m
  }

  /** Facts share an event only if they agree on predicate, participating
      entities (with repeats, in any order) and anchor, and always then. */
  lemma EventIdentity(ids: map<Ref, string>, hash: EventHash, f: Fact<RawEvent>, h: Fact<RawEvent>)
    requires InjectiveHash(hash) && EventOf(ids, hash, f).Some? && EventOf(ids, hash, h).Some?
    ensures EventOf(ids, hash, f) == EventOf(ids, hash, h) <==>
      && f.raw.predicateName == h.raw.predicateName
      && multiset(Names(ResolvedParticipants(ids, f, f.raw.participants).value))
           == multiset(Names(ResolvedParticipants(ids, h, h.raw.participants).value))
      && AnchorOf(f).chunkId == AnchorOf(h).chunkId && AnchorOf(f).start == AnchorOf(h).start
  {
    hide ResolvedParticipants, Order.SortBy;
    var a := Names(ResolvedParticipants(ids, f, f.raw.participants).value);
    var b := Names(ResolvedParticipants(ids, h, h.raw.participants).value);
    Order.SortedStringsAgree(a, b);
  }
}
