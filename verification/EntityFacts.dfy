/** Name, type and order of merged entities, said of the mentions themselves. */
module EntityFacts {
  import opened Schemas
  import opened Merge
  import opened Provenance
  import opened EntityGraphs
  import opened EntityResolution
  import Construction
  import Order

  /** The mentions of this name. */
  function Named(members: seq<Mention>, name: string): set<nat> {
    set i | 0 <= i < |members| && members[i].name == name
  }

  function Typed(members: seq<Mention>, kind: string): set<nat> {
    set i | 0 <= i < |members| && members[i].kind == kind
  }

  /** Some span of a mention of this name starts at `o`, and none before. */
  ghost predicate FirstSeen(members: seq<Mention>, name: string, o: nat) {
    && (exists m, sp :: m in members && m.name == name && sp in m.provenance && sp.start == o)
    && forall m, sp :: m in members && m.name == name && sp in m.provenance ==> o <= sp.start
  }

  lemma {:induction false} NameCountIs(members: seq<Mention>, name: string)
    ensures NameCount(members, name) == |Named(members, name)|
  {
    if members != [] {
      var n := |members| - 1;
      NameCountIs(members[..n], name);
      var last := if members[n].name == name then {n} else {};
      assert Named(members, name) == Named(members[..n], name) + last;
    }
  }

  lemma {:induction false} TypeCountIs(members: seq<Mention>, kind: string)
    ensures TypeCount(members, kind) == |Typed(members, kind)|
  {
    if members != [] {
      var n := |members| - 1;
      TypeCountIs(members[..n], kind);
      var last := if members[n].kind == kind then {n} else {};
      assert Typed(members, kind) == Typed(members[..n], kind) + last;
    }
  }

  lemma FirstSeenIs(members: seq<Mention>, name: string, o: nat)
    ensures IsEarliest(members, name, o) <==> FirstSeen(members, name, o)
  {
    if FirstSeen(members, name, o) {
      forall x | StartsAt(members, name, x) ensures o <= x { }
    }
    if IsEarliest(members, name, o) {
      forall m, sp | m in members && m.name == name && sp in m.provenance ensures o <= sp.start {
        assert StartsAt(members, name, sp.start);
      }
    }
  }

  /** The name of an entity is carried by more of its mentions than any other, or
      by as many and seen earlier, or by as many, seen as early and alphabetically first. */
  lemma CanonicalNameWins(members: seq<Mention>, name: string, other: string, x: nat, y: nat)
    requires IsCanonicalName(members, name) && FirstSeen(members, name, x) && FirstSeen(members, other, y)
    ensures Named(members, name) != {}
    ensures other != name ==>
      var a, b := |Named(members, name)|, |Named(members, other)|;
      a > b || (a == b && (x < y || (x == y && Order.Earlier(name, other))))
  {
    hide Order.StrLe, Order.Earlier;
    NameCountIs(members, name);
    NameCountIs(members, other);
    FirstSeenIs(members, name, x);
    FirstSeenIs(members, other, y);
    var m :| m in members && m.name == name;
    var i :| 0 <= i < |members| && members[i] == m;
    assert i in Named(members, name);
    assert IsName(members, other);
    assert Outranks(members, name, other);
    Order.StrLeIsEarlier(name, other);
  }

  /** The type of an entity is the one most of its mentions have; when several have most, `OTHER`. */
  lemma MajorityTypeIs(members: seq<Mention>, kind: string)
    requires IsMajorityType(members, kind) && members != []
    ensures if exists k :: Leads(members, k) then Leads(members, kind) else kind == "OTHER"
  {
    hide TypeCount;
    forall k ensures TypeCount(members, k) == |Typed(members, k)| { TypeCountIs(members, k); }
    forall k ensures (exists m :: m in members && m.kind == k) <==> Typed(members, k) != {} { TypeIsHeld(members, k); }
    forall k ensures MostCommon(members, k) <==> Most(members, k) { MostIs(members, k); }
    if k :| Leads(members, k) { assert MostCommon(members, k); }
    if k :| MostCommon(members, k) && forall other :: MostCommon(members, other) ==> other == k {
      LoneMostLeads(members, k);
    }
  }

  ghost predicate Most(members: seq<Mention>, kind: string) {
    Typed(members, kind) != {} && forall other :: |Typed(members, other)| <= |Typed(members, kind)|
  }

  /** More mentions have this type than any other. */
  ghost predicate Leads(members: seq<Mention>, kind: string) {
    Typed(members, kind) != {} && forall other :: other != kind ==> |Typed(members, other)| < |Typed(members, kind)|
  }

  lemma TypeIsHeld(members: seq<Mention>, kind: string)
    ensures (exists m :: m in members && m.kind == kind) <==> Typed(members, kind) != {}
  {
    if m :| m in members && m.kind == kind {
      var i :| 0 <= i < |members| && members[i] == m;
      assert i in Typed(members, kind);
    }
    if Typed(members, kind) != {} {
      var i :| i in Typed(members, kind);
      assert members[i] in members;
    }
  }

  lemma MostIs(members: seq<Mention>, kind: string)
    ensures MostCommon(members, kind) <==> Most(members, kind)
  {
    hide TypeCount;
    TypeIsHeld(members, kind);
    TypeCountIs(members, kind);
    if MostCommon(members, kind) {
      forall other ensures |Typed(members, other)| <= |Typed(members, kind)| {
        TypeCountIs(members, other);
        TypeIsHeld(members, other);
      }
    }
    if Most(members, kind) {
      forall m | m in members ensures TypeCount(members, m.kind) <= TypeCount(members, kind) {
        TypeCountIs(members, m.kind);
      }
    }
  }

  lemma LoneMostLeads(members: seq<Mention>, kind: string)
    requires MostCommon(members, kind) && forall other :: MostCommon(members, other) ==> other == kind
    ensures Leads(members, kind)
  {
    hide MostCommon;
    MostIs(members, kind);
    forall other | other != kind ensures |Typed(members, other)| < |Typed(members, kind)| {
      MostIs(members, other);
      if |Typed(members, other)| == |Typed(members, kind)| { EqualIsMost(members, kind, other); }
    }
  }

  lemma EqualIsMost(members: seq<Mention>, kind: string, other: string)
    requires Most(members, kind) && |Typed(members, other)| == |Typed(members, kind)|
    ensures Most(members, other)
  {
  }

  /** Entities come in ascending order of their ids. */
  lemma EntitiesAscend(hash: EntityHash, components: seq<seq<Mention>>, merged: seq<Entity>, entities: seq<Entity>,
                       ids: map<Construction.Ref, string>, i: nat, j: nat)
    requires ResolvedAs(hash, components, merged, entities, ids) && i < j < |entities|
    ensures entities[i].id == entities[j].id || Order.Earlier(entities[i].id, entities[j].id)
  {
    hide Order.StrLe, Order.Earlier, Maps, IsMerged, Order.SortBy;
    assert IdLe(entities[i], entities[j]);
    Order.StrLeIsEarlier(entities[i].id, entities[j].id);
  }
}
