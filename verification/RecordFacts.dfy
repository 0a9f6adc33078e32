/** What a graph assembled from records holds at an id, a name and a pair, said of the records. */
module RecordFacts {
  import opened Schemas
  import opened Grouping
  import opened Provenance
  import opened EntityGraphs
  import opened Records
  import Order

  /** The record at an id is the last one given with it. */
  lemma {:induction false} RecordIsLast(entities: seq<Entity>, i: nat)
    requires i < |entities| && forall j :: i < j < |entities| ==> entities[j].id != entities[i].id
    ensures entities[i].id in LastById(entities) && LastById(entities)[entities[i].id] == entities[i]
  {
    var n := |entities| - 1;
    if i < n { RecordIsLast(entities[..n], i); }
  }

  /** A name leads to the last record given with it, letter case aside. */
  lemma {:induction false} NameLeadsToLast(lower: string -> string, entities: seq<Entity>, i: nat)
    requires i < |entities| && forall j :: i < j < |entities| ==> lower(entities[j].name) != lower(entities[i].name)
    ensures lower(entities[i].name) in NameIndex(lower, entities)
    ensures NameIndex(lower, entities)[lower(entities[i].name)] == entities[i].id
  {
    var n := |entities| - 1;
    if i < n { NameLeadsToLast(lower, entities[..n], i); }
  }

  /** ... and no other name leads anywhere. */
  lemma {:induction false} NameIsKnown(lower: string -> string, entities: seq<Entity>, k: string)
    requires k in NameIndex(lower, entities)
    ensures exists e :: e in entities && lower(e.name) == k
  {
    var n := |entities| - 1;
    if lower(entities[n].name) == k {
      assert entities[n] in entities;
    } else {
      NameIsKnown(lower, entities[..n], k);
      var e :| e in entities[..n] && lower(e.name) == k;
      assert e in entities;
    }
  }

  predicate SameEdge(e: Relation, r: Relation) { e.subject == r.subject && e.obj == r.obj && e.kind == r.kind }

  /** The edge of a pair has the ends and the type of one of its relations, whose
      type is not after any other's. */
  lemma EdgeTypeIsFirst(entities: seq<Entity>, relations: seq<Relation>, g: Graph, s: Slot)
    requires Assembled(entities, relations, g) && s in g.edges
    ensures exists first ::
      first in relations && SlotOf(first.subject, first.obj) == s && SameEdge(g.edges[s], first)
    ensures forall r :: r in relations && SlotOf(r.subject, r.obj) == s ==>
      g.edges[s].kind == r.kind || Order.Earlier(g.edges[s].kind, r.kind)
  {
    hide GroupBy, SlotOf, LastById, Order.Earlier, Order.StrLe;
    var group := GroupBy(SlotKeys(), relations).of[s];
    forall r ensures r in group <==> r in relations && SlotOf(r.subject, r.obj) == s {
      GroupMembers(SlotKeys(), relations, s, r);
    }
    GroupsAreTidy(SlotKeys(), relations);
    var first := FirstOf(group, g.edges[s]);
    forall r | r in relations && SlotOf(r.subject, r.obj) == s
      ensures g.edges[s].kind == r.kind || Order.Earlier(g.edges[s].kind, r.kind)
    {
      Order.StrLeIsEarlier(first.kind, r.kind);
    }
  }

  lemma FirstOf(group: seq<Relation>, e: Relation) returns (first: Relation)
    requires Merged(group, e) && group != []
    ensures first in group && (e.subject, e.obj, e.kind) == (first.subject, first.obj, first.kind)
    ensures forall r :: r in group ==> Order.StrLe(first.kind, r.kind)
  {
    hide Arrangement, SumOf, Order.StrLe;
    if |group| == 1 {
      first := group[0];
      Order.StrLeTotal(first.kind, first.kind);
    } else {
      first :| FirstByKind(group, first) && (e.subject, e.obj, e.kind) == (first.subject, first.obj, first.kind);
      forall r | r in group ensures Order.StrLe(first.kind, r.kind) {
        var k :| 0 <= k < |group| && group[k] == r;
        assert KindLe(first, group[k]);
      }
    }
  }
}
