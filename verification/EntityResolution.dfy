/** From merged components to entity records and the local-to-global id map
    (`merge_component`, `resolve_entities`). */
module EntityResolution {
  import opened Schemas
  import opened Grouping
  import opened Merge
  import opened Partition
  import opened Provenance
  import opened EntityGraphs
  import opened Construction
  import opened UnionFind
  import Order

  // ----- select_canonical_name -----

  function NamedBy(name: string): Mention -> bool { (m: Mention) => m.name == name }

  function NameCount(members: seq<Mention>, name: string): nat { |Filter(NamedBy(name), members)| }

  ghost predicate StartsAt(members: seq<Mention>, name: string, o: nat) {
    exists m, sp :: m in members && m.name == name && sp in m.provenance && sp.start == o
  }

  /** `o` is the least offset at which a member with this name has a span. */
  ghost predicate IsEarliest(members: seq<Mention>, name: string, o: nat) {
    StartsAt(members, name, o) && forall x :: StartsAt(members, name, x) ==> o <= x
  }

  /** More frequent, then earlier, then lexicographically first. */
  predicate Precedes(countA: nat, earliestA: nat, a: string, countB: nat, earliestB: nat, b: string) {
    countA > countB || (countA == countB &&
      (earliestA < earliestB || (earliestA == earliestB && Order.StrLe(a, b))))
  }

  ghost predicate Outranks(members: seq<Mention>, a: string, b: string) {
    forall x, y :: IsEarliest(members, a, x) && IsEarliest(members, b, y) ==>
      Precedes(NameCount(members, a), x, a, NameCount(members, b), y, b)
  }

  ghost predicate IsName(members: seq<Mention>, name: string) { exists m :: m in members && m.name == name }

  ghost predicate IsCanonicalName(members: seq<Mention>, name: string) {
    IsName(members, name) && forall other :: IsName(members, other) ==> Outranks(members, name, other)
  }

  ghost predicate Anchored(members: seq<Mention>) { forall m :: m in members ==> m.provenance != [] }

  method MinStart(provenance: seq<Span>) returns (o: nat)
    requires provenance != []
    ensures (exists sp :: sp in provenance && sp.start == o) && forall sp :: sp in provenance ==> o <= sp.start
  {
    o := provenance[0].start;
    for i := 1 to |provenance|
      invariant exists k :: 0 <= k < i && provenance[k].start == o
      invariant forall k :: 0 <= k < i ==> o <= provenance[k].start
    {
      if provenance[i].start < o { o := provenance[i].start; }
    }
  }

  ghost predicate TallyOf(members: seq<Mention>, counts: map<string, nat>, earliest: map<string, nat>, name: string) {
    && (name in counts <==> IsName(members, name)) && (name in earliest <==> name in counts)
    && (if name in counts then counts[name] == NameCount(members, name) else NameCount(members, name) == 0)
    && (name in earliest ==> IsEarliest(members, name, earliest[name]))
  }

  lemma TallyNext(members: seq<Mention>, i: nat, counts0: map<string, nat>, earliest0: map<string, nat>, o: nat,
                  name: string)
    requires i < |members| && TallyOf(members[..i], counts0, earliest0, name)
    requires exists sp :: sp in members[i].provenance && sp.start == o
    requires forall sp :: sp in members[i].provenance ==> o <= sp.start
    ensures var own := members[i].name;
      TallyOf(members[..i + 1],
              counts0[own := (if own in counts0 then counts0[own] else 0) + 1],
              if own !in earliest0 || o < earliest0[own] then earliest0[own := o] else earliest0, name)
  {
    var before, now, own := members[..i], members[..i + 1], members[i].name;
    assert now == before + [members[i]];
    FilterAppend(NamedBy(name), before, members[i]);
    assert IsName(now, name) <==> IsName(before, name) || own == name by {
      if IsName(before, name) { var m :| m in before && m.name == name; assert m in now; }
      assert members[i] in now;
    }
    forall x ensures StartsAt(now, name, x) <==>
      StartsAt(before, name, x) || (own == name && exists sp :: sp in members[i].provenance && sp.start == x)
    {
      StartsNext(members, i, name, x);
    }
  }

  lemma StartsNext(members: seq<Mention>, i: nat, name: string, x: nat)
    requires i < |members|
    ensures StartsAt(members[..i + 1], name, x) <==>
      StartsAt(members[..i], name, x)
        || (members[i].name == name && exists sp :: sp in members[i].provenance && sp.start == x)
  {
    var before, now := members[..i], members[..i + 1];
    assert now == before + [members[i]];
    if StartsAt(before, name, x) {
      var m, sp :| m in before && m.name == name && sp in m.provenance && sp.start == x;
      assert m in now;
    }
    if members[i].name == name && exists sp :: sp in members[i].provenance && sp.start == x {
      assert members[i] in now;
    }
  }

  method SelectCanonicalName(members: seq<Mention>) returns (best: string)
    requires members != [] && Anchored(members)
    ensures IsCanonicalName(members, best)
  {
    hide TallyOf;
    var counts: map<string, nat>, earliest: map<string, nat> := map[], map[];
    NothingTallied();
    for i := 0 to |members|
      invariant forall name :: TallyOf(members[..i], counts, earliest, name)
    {
      var name := members[i].name;
      var o := MinStart(members[i].provenance);
      ghost var counts0, earliest0 := counts, earliest;
      counts := counts[name := (if name in counts then counts[name] else 0) + 1];
      if name !in earliest || o < earliest[name] { earliest := earliest[name := o]; }
      ghost var next := i + 1;
      forall other ensures TallyOf(members[..next], counts, earliest, other) {
        assert TallyOf(members[..i], counts0, earliest0, other);
        TallyNext(members, i, counts0, earliest0, o, other);
      }
    }
    assert members[..|members|] == members;
    best := LeastName(members, counts, earliest);
  }

  lemma NothingTallied()
    ensures forall name :: TallyOf([], map[], map[], name)
  {
  }

  /** `min(name_counts, key=...)` */
  method LeastName(members: seq<Mention>, counts: map<string, nat>, earliest: map<string, nat>) returns (best: string)
    requires members != [] && forall name :: TallyOf(members, counts, earliest, name)
    ensures IsCanonicalName(members, best)
  {
    hide NameCount, IsEarliest, Precedes, TallyOf;
    forall name
      ensures (name in counts <==> IsName(members, name)) && (name in earliest <==> name in counts)
      ensures name in counts ==> counts[name] == NameCount(members, name) && IsEarliest(members, name, earliest[name])
    {
      TallyMeans(members, counts, earliest, name);
    }
    assert IsName(members, members[0].name);
    var todo := counts.Keys;
    best :| best in todo;
    todo := todo - {best};
    PrecedesIsTotal(counts, earliest, best, best, best);
    while todo != {}
      invariant todo <= counts.Keys && best in counts
      invariant forall n ::
        n in counts.Keys - todo ==> Precedes(counts[best], earliest[best], best, counts[n], earliest[n], n)
    {
      var n :| n in todo;
      ghost var done, was := counts.Keys - todo, best;
      if !Precedes(counts[best], earliest[best], best, counts[n], earliest[n], n) { best := n; }
      todo := todo - {n};
      forall m | m in done + {n} ensures Precedes(counts[best], earliest[best], best, counts[m], earliest[m], m) {
        PrecedesIsTotal(counts, earliest, n, was, m);
        PrecedesIsTotal(counts, earliest, n, n, n);
      }
    }
    forall other | IsName(members, other) ensures Outranks(members, best, other) {
      assert other in counts.Keys - todo;
      EarliestIsUnique(members, best);
      EarliestIsUnique(members, other);
    }
  }

  lemma TallyMeans(members: seq<Mention>, counts: map<string, nat>, earliest: map<string, nat>, name: string)
    requires TallyOf(members, counts, earliest, name)
    ensures (name in counts <==> IsName(members, name)) && (name in earliest <==> name in counts)
    ensures name in counts ==> counts[name] == NameCount(members, name) && IsEarliest(members, name, earliest[name])
  {
  }

  lemma EarliestIsUnique(members: seq<Mention>, name: string)
    ensures forall x, y :: IsEarliest(members, name, x) && IsEarliest(members, name, y) ==> x == y
  {
  }

  lemma PrecedesIsTotal(counts: map<string, nat>, earliest: map<string, nat>, a: string, b: string, c: string)
    requires {a, b, c} <= counts.Keys && {a, b, c} <= earliest.Keys
    ensures Precedes(counts[a], earliest[a], a, counts[b], earliest[b], b)
      || Precedes(counts[b], earliest[b], b, counts[a], earliest[a], a)
    ensures Precedes(counts[a], earliest[a], a, counts[b], earliest[b], b) ==>
            Precedes(counts[b], earliest[b], b, counts[c], earliest[c], c) ==>
              Precedes(counts[a], earliest[a], a, counts[c], earliest[c], c)
  {
    Order.StrLeTotal(a, b);
    if Order.StrLe(a, b) && Order.StrLe(b, c) { Order.StrLeTransitive(a, b, c); }
  }

  lemma {:induction false} EarliestExists(members: seq<Mention>, name: string, x: nat) returns (o: nat)
    requires StartsAt(members, name, x)
    ensures IsEarliest(members, name, o)
    decreases x
  {
    if y: nat :| StartsAt(members, name, y) && y < x {
      o := EarliestExists(members, name, y);
    } else {
      o := x;
    }
  }

  lemma NameHasEarliest(members: seq<Mention>, name: string) returns (o: nat)
    requires Anchored(members) && IsName(members, name)
    ensures IsEarliest(members, name, o)
  {
    hide IsEarliest;
    var m :| m in members && m.name == name;
    assert m.provenance[0] in m.provenance && StartsAt(members, name, m.provenance[0].start);
    o := EarliestExists(members, name, m.provenance[0].start);
  }

  /** The tie-break chain leaves exactly one name. */
  lemma CanonicalNameIsUnique(members: seq<Mention>, a: string, b: string)
    requires Anchored(members) && IsCanonicalName(members, a) && IsCanonicalName(members, b)
    ensures a == b
  {
    hide Anchored, IsEarliest, NameCount;
    var x := NameHasEarliest(members, a);
    var y := NameHasEarliest(members, b);
    assert Outranks(members, a, b) && Outranks(members, b, a);
    if a != b {
      Order.StrLeTotal(a, b);
      if Order.StrLe(a, b) && Order.StrLe(b, a) { Order.StrLeAntisymmetric(a, b); }
    }
  }

  /** ... and it does not depend on the order of the members. */
  lemma CanonicalNameIgnoresOrder(a: seq<Mention>, b: seq<Mention>, name: string)
    requires multiset(a) == multiset(b) && IsCanonicalName(a, name)
    ensures IsCanonicalName(b, name)
  {
    hide Precedes, IsEarliest;
    forall m ensures m in a <==> m in b { assert m in multiset(a) <==> m in multiset(b); }
    forall n, x ensures StartsAt(a, n, x) <==> StartsAt(b, n, x) { StartsAgree(a, b, n, x); }
    forall n, x ensures IsEarliest(a, n, x) <==> IsEarliest(b, n, x) { EarliestAgrees(a, b, n, x); }
    forall n ensures NameCount(a, n) == NameCount(b, n) { CountOfPermuted(NamedBy(n), a, b); }
    forall other | IsName(b, other) ensures Outranks(b, name, other) {
      assert IsName(a, other);
      assert Outranks(a, name, other);
    }
  }

  lemma StartsAgree(a: seq<Mention>, b: seq<Mention>, n: string, x: nat)
    requires forall m :: m in a <==> m in b
    ensures StartsAt(a, n, x) <==> StartsAt(b, n, x)
  {
  }

  lemma EarliestAgrees(a: seq<Mention>, b: seq<Mention>, n: string, x: nat)
    requires forall y :: StartsAt(a, n, y) <==> StartsAt(b, n, y)
    ensures IsEarliest(a, n, x) <==> IsEarliest(b, n, x)
  {
  }

  // ----- select_entity_type -----

  function TypedBy(kind: string): Mention -> bool { (m: Mention) => m.kind == kind }

  function TypeCount(members: seq<Mention>, kind: string): nat { |Filter(TypedBy(kind), members)| }

  ghost predicate MostCommon(members: seq<Mention>, kind: string) {
    && (exists m :: m in members && m.kind == kind)
    && forall m :: m in members ==> TypeCount(members, m.kind) <= TypeCount(members, kind)
  }

  /** The majority type; a tie is `OTHER`. */
  ghost predicate IsMajorityType(members: seq<Mention>, kind: string) {
    if exists k :: MostCommon(members, k) && forall other :: MostCommon(members, other) ==> other == k
    then MostCommon(members, kind)
    else kind == "OTHER"
  }

  method CountTypes(members: seq<Mention>) returns (counts: map<string, nat>)
    ensures forall k :: k in counts <==> exists m :: m in members && m.kind == k
    ensures forall k :: k in counts ==> counts[k] == TypeCount(members, k)
  {
    hide TypeCount;
    counts := map[];
    TypeCountOfNone();
    for i := 0 to |members|
      invariant forall k :: k in counts <==> exists m :: m in members[..i] && m.kind == k
      invariant forall k :: (if k in counts then counts[k] else 0) == TypeCount(members[..i], k)
    {
      var kind := members[i].kind;
      ghost var next := i + 1;
      assert members[..next] == members[..i] + [members[i]];
      forall k ensures TypeCount(members[..next], k) == TypeCount(members[..i], k) + if k == kind then 1 else 0 {
        TypeCountNext(members, i, k);
      }
      counts := counts[kind := (if kind in counts then counts[kind] else 0) + 1];
    }
    assert members[..|members|] == members;
  }

  lemma TypeCountOfNone()
    ensures forall k :: TypeCount([], k) == 0
  {
  }

  lemma TypeCountNext(members: seq<Mention>, i: nat, k: string)
    requires i < |members|
    ensures TypeCount(members[..i + 1], k) == TypeCount(members[..i], k) + if k == members[i].kind then 1 else 0
  {
    assert members[..i + 1] == members[..i] + [members[i]];
    FilterAppend(TypedBy(k), members[..i], members[i]);
  }

  method SelectEntityType(members: seq<Mention>) returns (kind: string)
    requires members != []
    ensures IsMajorityType(members, kind)
  {
    hide TypeCount, MostCommon, IsMajorityType;
    var counts := CountTypes(members);
    assert members[0].kind in counts;
    var best := MaxValue(counts);
    var winners := set k | k in counts && counts[k] == best;
    forall k ensures k in winners <==> MostCommon(members, k) { WinnersAreMostCommon(members, counts, best, k); }
    if |winners| == 1 {
      kind :| kind in winners;
      OneMember(winners, kind);
      OneWinner(members, winners, kind);
    } else {
      kind := "OTHER";
      NoSingleWinner(members, winners);
    }
  }

  lemma OneWinner(members: seq<Mention>, winners: set<string>, kind: string)
    requires (forall k :: k in winners <==> MostCommon(members, k)) && winners == {kind}
    ensures IsMajorityType(members, kind)
  {
    hide MostCommon;
    assert MostCommon(members, kind);
  }

  lemma NoSingleWinner(members: seq<Mention>, winners: set<string>)
    requires (forall k :: k in winners <==> MostCommon(members, k)) && |winners| != 1
    ensures IsMajorityType(members, "OTHER")
  {
    hide MostCommon;
    if k :| MostCommon(members, k) && forall other :: MostCommon(members, other) ==> other == k {
      OnlyMember(winners, k);
    }
  }

  lemma OnlyMember(s: set<string>, x: string)
    requires x in s && forall y :: y in s ==> y == x
    ensures |s| == 1
  {
    assert s == {x};
  }

  lemma OneMember(s: set<string>, x: string)
    requires |s| == 1 && x in s
    ensures s == {x}
  {
    assert |s - {x}| == 0;
  }

  lemma WinnersAreMostCommon(members: seq<Mention>, counts: map<string, nat>, best: nat, k: string)
    requires forall k :: k in counts <==> exists m :: m in members && m.kind == k
    requires forall k :: k in counts ==> counts[k] == TypeCount(members, k)
    requires (exists x :: x in counts && counts[x] == best) && forall x :: x in counts ==> counts[x] <= best
    ensures k in counts && counts[k] == best <==> MostCommon(members, k)
  {
    if k in counts {
      forall m | m in members ensures TypeCount(members, m.kind) <= best { assert m.kind in counts; }
      if MostCommon(members, k) {
        var x :| x in counts && counts[x] == best;
        var m :| m in members && m.kind == x;
      }
    }
  }

  /** `max(counts.values())` */
  method MaxValue(counts: map<string, nat>) returns (best: nat)
    requires counts != map[]
    ensures (exists k :: k in counts && counts[k] == best) && forall k :: k in counts ==> counts[k] <= best
  {
    var todo := counts.Keys;
    var k :| k in counts;
    best := counts[k];
    while todo != {}
      invariant todo <= counts.Keys
      invariant exists k :: k in counts && counts[k] == best
      invariant forall k :: k in counts.Keys - todo ==> counts[k] <= best
    {
      var x :| x in todo;
      if counts[x] > best { best := counts[x]; }
      todo := todo - {x};
    }
  }

  // ----- merge_component -----

  function MentionSpans(members: seq<Mention>): seq<seq<Span>> {
    seq(|members|, i requires 0 <= i < |members| => members[i].provenance)
  }

  type EntityHash = (string, string) -> string

  ghost predicate IsMerged(hash: EntityHash, members: seq<Mention>, e: Entity) {
    && IsCanonicalName(members, e.name) && IsMajorityType(members, e.kind)
    && e.id == hash(e.name, e.kind)
    && Arrangement(UnionOf(MentionSpans(members)), e.provenance)
  }

  method MergeComponent(hash: EntityHash, members: seq<Mention>) returns (e: Entity)
    requires members != [] && Anchored(members)
    ensures IsMerged(hash, members, e)
  {
    hide IsCanonicalName, IsMajorityType, Arrangement, Anchored;
    var name := SelectCanonicalName(members);
    var kind := SelectEntityType(members);
    var provenance := Arrange(UnionOf(MentionSpans(members)));
    e := Entity(hash(name, kind), name, kind, provenance);
  }

  // ----- resolve_entities -----

  function RefOf(m: Mention): Ref { Ref(m.chapter, m.window, m.localId) }

  predicate IdLe(a: Entity, b: Entity) { Order.StrLe(a.id, b.id) }

  lemma IdLeIsTotal()
    ensures Order.TotalPreorder(IdLe)
  {
    forall x, y ensures IdLe(x, y) || IdLe(y, x) { Order.StrLeTotal(x.id, y.id); }
    forall x, y, z | IdLe(x, y) && IdLe(y, z) ensures IdLe(x, z) { Order.StrLeTransitive(x.id, y.id, z.id); }
  }

  ghost predicate Held(members: seq<Mention>, ref: Ref) { exists m :: m in members && RefOf(m) == ref }

  ghost predicate InComponent(components: seq<seq<Mention>>, x: nat, ref: Ref) {
    x < |components| && Held(components[x], ref)
  }

  /** A reference maps to the entity of the last component holding it. */
  ghost predicate Maps(components: seq<seq<Mention>>, merged: seq<Entity>, ids: map<Ref, string>, ref: Ref) {
    if ref in ids then
      exists x :: 0 <= x < |merged| && InComponent(components, x, ref) && ids[ref] == merged[x].id
        && forall y :: x < y < |merged| ==> !InComponent(components, y, ref)
    else forall x :: 0 <= x < |merged| ==> !InComponent(components, x, ref)
  }

  ghost predicate AllMerged(hash: EntityHash, components: seq<seq<Mention>>, merged: seq<Entity>) {
    |merged| <= |components| && forall x :: 0 <= x < |merged| ==> IsMerged(hash, components[x], merged[x])
  }

  ghost predicate MapsMember(members: seq<Mention>, id: string, ids0: map<Ref, string>, ids: map<Ref, string>, r: Ref) {
    && (r in ids <==> r in ids0 || Held(members, r))
    && (r in ids ==> ids[r] == if Held(members, r) then id else ids0[r])
  }

  method MapMembers(members: seq<Mention>, id: string, ids0: map<Ref, string>) returns (ids: map<Ref, string>)
    ensures forall r :: MapsMember(members, id, ids0, ids, r)
  {
    hide Held;
    ids := ids0;
    NoneHeld();
    for i := 0 to |members|
      invariant forall r :: MapsMember(members[..i], id, ids0, ids, r)
    {
      ghost var was, next := ids, i + 1;
      ids := ids[RefOf(members[i]) := id];
      forall r ensures MapsMember(members[..next], id, ids0, ids, r) {
        assert MapsMember(members[..i], id, ids0, was, r);
        HeldNext(members, i, r);
      }
    }
    assert members[..|members|] == members;
  }

  lemma NoneHeld()
    ensures forall r :: !Held([], r)
  {
  }

  lemma HeldNext(members: seq<Mention>, i: nat, r: Ref)
    requires i < |members|
    ensures Held(members[..i + 1], r) <==> Held(members[..i], r) || RefOf(members[i]) == r
  {
    var before, now := members[..i], members[..i + 1];
    assert now == before + [members[i]];
    if Held(before, r) { var m :| m in before && RefOf(m) == r; assert m in now; }
    assert members[i] in now;
  }

  /** What `resolve_entities` returns for the given components; `merged` lists the
      entities before the stable sort by id. */
  ghost predicate ResolvedAs(hash: EntityHash, components: seq<seq<Mention>>, merged: seq<Entity>,
                             entities: seq<Entity>, ids: map<Ref, string>) {
    && |merged| == |components| && AllMerged(hash, components, merged)
    && entities == Order.SortBy(merged, IdLe)
    && multiset(entities) == multiset(merged) && Order.Sorted(entities, IdLe)
    && forall ref :: Maps(components, merged, ids, ref)
  }

  method ResolveComponents(hash: EntityHash, components: seq<seq<Mention>>)
    returns (entities: seq<Entity>, ids: map<Ref, string>, ghost merged: seq<Entity>)
    requires forall x :: 0 <= x < |components| ==> components[x] != [] && Anchored(components[x])
    ensures ResolvedAs(hash, components, merged, entities, ids)
  {
    hide IsMerged, Maps, Order.SortBy, Anchored;
    entities, ids, merged := [], map[], [];
    NothingMapped(components);
    for x := 0 to |components|
      invariant |merged| == x && AllMerged(hash, components, merged) && entities == merged
      invariant forall ref :: Maps(components, merged, ids, ref)
    {
      var entity := MergeComponent(hash, components[x]);
      ghost var ids0, merged0 := ids, merged;
      entities := entities + [entity];
      merged := merged + [entity];
      ids := MapMembers(components[x], entity.id, ids);
      forall ref ensures Maps(components, merged, ids, ref) {
        assert Maps(components, merged0, ids0, ref);
        assert MapsMember(components[x], entity.id, ids0, ids, ref);
        MapsNext(components, merged0, entity, ids0, ids, ref);
      }
    }
    IdLeIsTotal();
    Order.SortByCorrect(entities, IdLe);
    entities := Order.SortBy(entities, IdLe);
  }

  lemma NothingMapped(components: seq<seq<Mention>>)
    ensures forall ref :: Maps(components, [], map[], ref)
  {
  }

  lemma MapsNext(components: seq<seq<Mention>>, merged: seq<Entity>, entity: Entity, ids0: map<Ref, string>,
                 ids: map<Ref, string>, ref: Ref)
    requires |merged| < |components| && Maps(components, merged, ids0, ref)
    requires MapsMember(components[|merged|], entity.id, ids0, ids, ref)
    ensures Maps(components, merged + [entity], ids, ref)
  {
    hide Held;
    var more, n := merged + [entity], |merged|;
    if InComponent(components, n, ref) {
      assert more[n] == entity && ids[ref] == more[n].id;
    } else if ref in ids0 {
      MapsLater(components, merged, more, ids0, ids, ref);
    }
  }

  lemma MapsLater(components: seq<seq<Mention>>, merged: seq<Entity>, more: seq<Entity>, ids0: map<Ref, string>,
                  ids: map<Ref, string>, ref: Ref)
    requires |more| == |merged| + 1 && more[..|merged|] == merged && Maps(components, merged, ids0, ref)
    requires ref in ids0 && ref in ids && ids[ref] == ids0[ref] && !InComponent(components, |merged|, ref)
    ensures Maps(components, more, ids, ref)
  {
    hide InComponent;
    var x :| 0 <= x < |merged| && InComponent(components, x, ref) && ids0[ref] == merged[x].id
      && forall y :: x < y < |merged| ==> !InComponent(components, y, ref);
    assert more[x] == more[..|merged|][x];
  }

  // ----- what resolution keeps -----

  /** The components of a corpus hold its mentions, no more and no fewer. */
  lemma ComponentsCover(lex: Lexicon, ordered: seq<Mention>, m: Mention)
    ensures m in ordered <==> exists x :: 0 <= x < |ComponentsOf(lex, ordered)| && m in ComponentsOf(lex, ordered)[x]
  {
    var t := TableOf(lex, ordered);
    var link := EvidenceLink(lex, t, AmbiguousKeys(lex, t));
    var cs, components := Classes(link, |ordered|), ComponentsOf(lex, ordered);
    if m in ordered {
      var i: nat :| i < |ordered| && ordered[i] == m;
      LinkedSelf(link, i);
      ClassesAreChains(link, |ordered|, i, i);
      var x :| 0 <= x < |cs| && i in cs[x];
      PickHas(ordered, cs[x], i);
      assert m in components[x];
    }
    if x :| 0 <= x < |components| && m in components[x] { PickedFrom(ordered, cs[x], m); }
  }

  lemma PickHas(ordered: seq<Mention>, indices: seq<nat>, i: nat)
    requires (forall k :: k in indices ==> k < |ordered|) && i in indices
    ensures ordered[i] in Pick(ordered, indices)
  {
    var y :| 0 <= y < |indices| && indices[y] == i;
    assert Pick(ordered, indices)[y] == ordered[i];
  }

  lemma PickedFrom(ordered: seq<Mention>, indices: seq<nat>, m: Mention)
    requires (forall k :: k in indices ==> k < |ordered|) && m in Pick(ordered, indices)
    ensures m in ordered
  {
    var y :| 0 <= y < |indices| && Pick(ordered, indices)[y] == m;
    assert indices[y] in indices;
  }

  /** `resolve_entities` */
  method ResolveEntities(lex: Lexicon, sortKey: Mention -> nat, hash: EntityHash, facts: seq<Mention>)
    returns (entities: seq<Entity>, ids: map<Ref, string>, ghost merged: seq<Entity>)
    requires Anchored(facts)
    ensures ResolvedAs(hash, ComponentsOf(lex, Ordered(sortKey, facts)), merged, entities, ids)
  {
    hide ResolvedAs;
    var components := ComputeComponents(lex, sortKey, facts);
    ComponentsAreAnchored(lex, sortKey, facts);
    entities, ids, merged := ResolveComponents(hash, components);
  }

  lemma OrderedMembers(sortKey: Mention -> nat, facts: seq<Mention>, m: Mention)
    ensures m in Ordered(sortKey, facts) <==> m in facts
  {
    Order.SortByCorrect(facts, (a, b) => sortKey(a) <= sortKey(b));
  }

  lemma ComponentsAreAnchored(lex: Lexicon, sortKey: Mention -> nat, facts: seq<Mention>)
    requires Anchored(facts)
    ensures var cs := ComponentsOf(lex, Ordered(sortKey, facts));
      forall x :: 0 <= x < |cs| ==> cs[x] != [] && Anchored(cs[x])
  {
    hide Ordered;
    var ordered := Ordered(sortKey, facts);
    var cs := ComponentsOf(lex, ordered);
    forall x | 0 <= x < |cs| ensures cs[x] != [] && Anchored(cs[x]) {
      ComponentIsInhabited(lex, ordered, x);
      forall m: Mention | m in cs[x] ensures m.provenance != [] {
        ComponentsCover(lex, ordered, m);
        OrderedMembers(sortKey, facts, m);
      }
    }
  }

  lemma ComponentIsInhabited(lex: Lexicon, ordered: seq<Mention>, x: nat)
    requires x < |ComponentsOf(lex, ordered)|
    ensures ComponentsOf(lex, ordered)[x] != []
  {
    var t := TableOf(lex, ordered);
    var link := EvidenceLink(lex, t, AmbiguousKeys(lex, t));
    var names := NamesUpTo(link, |ordered|);
    NamesMembers(link, |ordered|, names[x]);
    MembersMembers(link, names[x], |ordered|, names[x]);
    assert names[x] in Classes(link, |ordered|)[x];
  }

  lemma EntitiesAreMerged(merged: seq<Entity>, entities: seq<Entity>, e: Entity)
    requires multiset(entities) == multiset(merged)
    ensures e in entities <==> e in merged
  {
    assert e in entities <==> e in multiset(entities);
    assert e in merged <==> e in multiset(merged);
  }

  /** Every mention's reference resolves, and only theirs, to the id of a returned entity. */
  lemma ReferencesResolve(lex: Lexicon, sortKey: Mention -> nat, hash: EntityHash, facts: seq<Mention>,
                          merged: seq<Entity>, entities: seq<Entity>, ids: map<Ref, string>, ref: Ref)
    requires ResolvedAs(hash, ComponentsOf(lex, Ordered(sortKey, facts)), merged, entities, ids)
    ensures ref in ids <==> Held(facts, ref)
    ensures ref in ids ==> exists e :: e in entities && e.id == ids[ref]
  {
    hide Ordered, IsMerged;
    var ordered := Ordered(sortKey, facts);
    var cs := ComponentsOf(lex, ordered);
    assert Maps(cs, merged, ids, ref);
    if ref in ids {
      var x :| 0 <= x < |merged| && InComponent(cs, x, ref) && ids[ref] == merged[x].id;
      EntitiesAreMerged(merged, entities, merged[x]);
      var m :| m in cs[x] && RefOf(m) == ref;
      ComponentsCover(lex, ordered, m);
      OrderedMembers(sortKey, facts, m);
    }
    if m :| m in facts && RefOf(m) == ref {
      OrderedMembers(sortKey, facts, m);
      ComponentsCover(lex, ordered, m);
      var x :| 0 <= x < |cs| && m in cs[x];
      assert InComponent(cs, x, ref);
    }
  }

  /** The entities' spans are exactly the mentions' spans. */
  lemma SpansAreKept(lex: Lexicon, sortKey: Mention -> nat, hash: EntityHash, facts: seq<Mention>, merged: seq<Entity>,
                     entities: seq<Entity>, ids: map<Ref, string>, sp: Span)
    requires ResolvedAs(hash, ComponentsOf(lex, Ordered(sortKey, facts)), merged, entities, ids)
    ensures (exists e :: e in entities && sp in e.provenance) <==> exists m :: m in facts && sp in m.provenance
  {
    hide Ordered, IsCanonicalName, IsMajorityType;
    var ordered := Ordered(sortKey, facts);
    var cs := ComponentsOf(lex, ordered);
    if e :| e in entities && sp in e.provenance {
      EntitiesAreMerged(merged, entities, e);
      var x :| 0 <= x < |merged| && merged[x] == e;
      MemberSpans(cs[x], sp);
      var m: Mention :| m in cs[x] && sp in m.provenance;
      ComponentsCover(lex, ordered, m);
      OrderedMembers(sortKey, facts, m);
    }
    if m :| m in facts && sp in m.provenance {
      OrderedMembers(sortKey, facts, m);
      ComponentsCover(lex, ordered, m);
      var x :| 0 <= x < |cs| && m in cs[x];
      MemberSpans(cs[x], sp);
      assert IsMerged(hash, cs[x], merged[x]);
      EntitiesAreMerged(merged, entities, merged[x]);
    }
  }

  lemma EntitiesHaveSpans(lex: Lexicon, sortKey: Mention -> nat, hash: EntityHash, facts: seq<Mention>,
                          merged: seq<Entity>, entities: seq<Entity>, ids: map<Ref, string>, e: Entity)
    requires ResolvedAs(hash, ComponentsOf(lex, Ordered(sortKey, facts)), merged, entities, ids)
    requires Anchored(facts) && e in entities
    ensures e.provenance != []
  {
    hide Ordered, IsCanonicalName, IsMajorityType, ComponentsOf;
    var cs := ComponentsOf(lex, Ordered(sortKey, facts));
    EntitiesAreMerged(merged, entities, e);
    var x :| 0 <= x < |merged| && merged[x] == e;
    ComponentsAreAnchored(lex, sortKey, facts);
    var m: Mention := cs[x][0];
    assert m in cs[x] && m.provenance[0] in m.provenance;
    MemberSpans(cs[x], m.provenance[0]);
    assert IsMerged(hash, cs[x], merged[x]);
  }

  lemma MemberSpans(members: seq<Mention>, sp: Span)
    ensures sp in UnionOf(MentionSpans(members)) <==> exists m :: m in members && sp in m.provenance
  {
    var lists := MentionSpans(members);
    if i :| 0 <= i < |lists| && sp in lists[i] { assert members[i] in members && sp in members[i].provenance; }
    if m :| m in members && sp in m.provenance {
      var i :| 0 <= i < |members| && members[i] == m;
      assert sp in lists[i];
    }
  }

  /** No two mentions of the corpus carry the same window-local reference. */
  ghost predicate UniqueReferences(ms: seq<Mention>) {
    forall i, j :: 0 <= i < j < |ms| ==> RefOf(ms[i]) != RefOf(ms[j])
  }

  lemma OrderedKeepsUnique(sortKey: Mention -> nat, facts: seq<Mention>)
    requires UniqueReferences(facts)
    ensures UniqueReferences(Ordered(sortKey, facts))
  {
    var le := (a, b) => sortKey(a) <= sortKey(b);
    var ordered := Ordered(sortKey, facts);
    Order.SortByCorrect(facts, le);
    Order.SortedNoDuplicates(facts, le);
    forall i, j | 0 <= i < j < |ordered| ensures RefOf(ordered[i]) != RefOf(ordered[j]) {
      assert ordered[i] in facts && ordered[j] in facts && ordered[i] != ordered[j];
      var a :| 0 <= a < |facts| && facts[a] == ordered[i];
      var b :| 0 <= b < |facts| && facts[b] == ordered[j];
    }
  }

  lemma {:induction false} NamesAreDistinct(link: Link, n: nat)
    ensures Order.NoDuplicates(NamesUpTo(link, n))
  {
    if n != 0 {
      NamesAreDistinct(link, n - 1);
      NamesMembers(link, n - 1, n - 1);
    }
  }

  /** A mention belongs to one class only. */
  lemma OneClassEach(link: Link, n: nat, x: nat, y: nat, i: nat)
    requires x < |Classes(link, n)| && y < |Classes(link, n)| && i in Classes(link, n)[x] && i in Classes(link, n)[y]
    ensures x == y
  {
    var names := NamesUpTo(link, n);
    MembersMembers(link, names[x], n, i);
    MembersMembers(link, names[y], n, i);
    NamesAreDistinct(link, n);
    assert names[x] == names[y];
  }

  /** With unique references, a mention resolves to the entity of its own class. */
  lemma ResolvesToOwnClass(lex: Lexicon, ordered: seq<Mention>, hash: EntityHash, merged: seq<Entity>,
                           entities: seq<Entity>, ids: map<Ref, string>, x: nat, i: nat)
    requires ResolvedAs(hash, ComponentsOf(lex, ordered), merged, entities, ids) && UniqueReferences(ordered)
    requires x < |merged| && i < |ordered| && i in ClassList(lex, ordered)[x]
    ensures RefOf(ordered[i]) in ids && ids[RefOf(ordered[i])] == merged[x].id
  {
    hide IsMerged, EvidenceLink, TableOf, AmbiguousKeys, Classes;
    var cs, components, ref := ClassList(lex, ordered), ComponentsOf(lex, ordered), RefOf(ordered[i]);
    var link := EvidenceLink(lex, TableOf(lex, ordered), AmbiguousKeys(lex, TableOf(lex, ordered)));
    PickHas(ordered, cs[x], i);
    assert Maps(components, merged, ids, ref);
    assert ordered[i] in components[x] && InComponent(components, x, ref);
    var y :| 0 <= y < |merged| && InComponent(components, y, ref) && ids[ref] == merged[y].id;
    var m :| m in components[y] && RefOf(m) == ref;
    var k :| 0 <= k < |cs[y]| && components[y][k] == m;
    assert cs[y][k] in cs[y] && ordered[cs[y][k]] == m;
    assert cs[y][k] == i;
    OneClassEach(link, |ordered|, x, y, i);
  }

  ghost function ClassList(lex: Lexicon, ordered: seq<Mention>): (cs: seq<seq<nat>>)
    ensures |cs| == |ComponentsOf(lex, ordered)|
    ensures forall x, m :: 0 <= x < |cs| && m in cs[x] ==> m < |ordered|
  {
    Classes(EvidenceLink(lex, TableOf(lex, ordered), AmbiguousKeys(lex, TableOf(lex, ordered))), |ordered|)
  }

  /** With window-unique local ids, mentions joined by a chain of the merge policy resolve to one id. */
  lemma OneIdPerComponent(lex: Lexicon, sortKey: Mention -> nat, hash: EntityHash, facts: seq<Mention>,
                          merged: seq<Entity>, entities: seq<Entity>, ids: map<Ref, string>, i: nat, j: nat)
    requires ResolvedAs(hash, ComponentsOf(lex, Ordered(sortKey, facts)), merged, entities, ids)
    requires UniqueReferences(facts) && i < |Ordered(sortKey, facts)| && j < |Ordered(sortKey, facts)|
    requires var t := TableOf(lex, Ordered(sortKey, facts));
      Linked(EvidenceLink(lex, t, AmbiguousKeys(lex, t)), i, j)
    ensures var a, b := RefOf(Ordered(sortKey, facts)[i]), RefOf(Ordered(sortKey, facts)[j]);
      a in ids && b in ids && ids[a] == ids[b]
  {
    hide ResolvedAs, Ordered, EvidenceLink, TableOf, Linked, Classes, UniqueReferences;
    var ordered := Ordered(sortKey, facts);
    var link := EvidenceLink(lex, TableOf(lex, ordered), AmbiguousKeys(lex, TableOf(lex, ordered)));
    OrderedKeepsUnique(sortKey, facts);
    ClassesAreChains(link, |ordered|, i, j);
    var x :| 0 <= x < |Classes(link, |ordered|)| && i in Classes(link, |ordered|)[x]
      && j in Classes(link, |ordered|)[x];
    assert |merged| == |ComponentsOf(lex, ordered)| by {
      ResolvedLength(hash, ComponentsOf(lex, ordered), merged, entities, ids);
    }
    ResolvesToOwnClass(lex, ordered, hash, merged, entities, ids, x, i);
    ResolvesToOwnClass(lex, ordered, hash, merged, entities, ids, x, j);
  }

  lemma ResolvedLength(hash: EntityHash, components: seq<seq<Mention>>, merged: seq<Entity>, entities: seq<Entity>,
                       ids: map<Ref, string>)
    requires ResolvedAs(hash, components, merged, entities, ids)
    ensures |merged| == |components|
  {
  }
}
