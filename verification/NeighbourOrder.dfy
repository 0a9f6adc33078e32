/** When `neighbor_relations` lists neighbours in ascending id order: it sorts by
    `(subject, object)`, which is another order once an edge points backwards. */
module NeighbourOrder {
  import opened Schemas
  import opened Chunking
  import opened EntityGraphs
  import opened Traversal
  import Order

  /** The neighbours of `u` come in ascending id order. */
  ghost predicate Ascending(rs: seq<Relation>, u: string) {
    forall i, j :: 0 <= i < j < |rs| ==> Order.StrLe(OtherEnd(rs[i], u), OtherEnd(rs[j], u))
  }

  /** An edge out of `u` and an edge into `u` that sort by subject as they would by neighbour. */
  predicate InPlace(u: string, out: Relation, into: Relation) {
    if Order.StrLe(into.subject, u) then Order.StrLe(into.subject, out.obj) else Order.StrLe(out.obj, into.subject)
  }

  predicate Outward(u: string, r: Relation) { r.subject == u }

  predicate Inward(u: string, r: Relation) { r.obj == u && r.subject != u }

  ghost predicate AllInPlace(rs: seq<Relation>, u: string) {
    forall a, b :: a in rs && b in rs && Outward(u, a) && Inward(u, b) ==> InPlace(u, a, b)
  }

  /** A sorted list of the edges at `u` ascends by neighbour exactly when every
      outward edge is in place against every inward one. */
  lemma AscendingIff(rs: seq<Relation>, u: string)
    requires Order.Sorted(rs, RelationLe) && forall r :: r in rs ==> Outward(u, r) || Inward(u, r)
    ensures Ascending(rs, u) <==> AllInPlace(rs, u)
  {
    hide Order.StrLe;
    if Ascending(rs, u) {
      forall a, b | a in rs && b in rs && Outward(u, a) && Inward(u, b) ensures InPlace(u, a, b) {
        var i :| 0 <= i < |rs| && rs[i] == a;
        var j :| 0 <= j < |rs| && rs[j] == b;
        PairInPlace(rs, u, i, j);
      }
    }
    if AllInPlace(rs, u) {
      forall i, j | 0 <= i < j < |rs| ensures Order.StrLe(OtherEnd(rs[i], u), OtherEnd(rs[j], u)) {
        assert rs[i] in rs && rs[j] in rs;
        assert RelationLe(rs[i], rs[j]);
        PairAscends(rs, u, i, j);
      }
    }
  }

  lemma PairInPlace(rs: seq<Relation>, u: string, i: nat, j: nat)
    requires Order.Sorted(rs, RelationLe) && Ascending(rs, u) && i < |rs| && j < |rs|
    requires Outward(u, rs[i]) && Inward(u, rs[j])
    ensures InPlace(u, rs[i], rs[j])
  {
    hide Order.StrLe;
    var s := rs[j].subject;
    Order.StrLeTotal(s, u);
    if i < j {
      assert RelationLe(rs[i], rs[j]) && Order.StrLe(OtherEnd(rs[i], u), OtherEnd(rs[j], u));
      if Order.StrLe(s, u) { Order.StrLeAntisymmetric(s, u); }
    } else {
      assert RelationLe(rs[j], rs[i]) && Order.StrLe(OtherEnd(rs[j], u), OtherEnd(rs[i], u));
    }
  }

  lemma PairAscends(rs: seq<Relation>, u: string, i: nat, j: nat)
    requires i < j < |rs| && AllInPlace(rs, u) && RelationLe(rs[i], rs[j])
    requires (Outward(u, rs[i]) || Inward(u, rs[i])) && (Outward(u, rs[j]) || Inward(u, rs[j]))
    ensures Order.StrLe(OtherEnd(rs[i], u), OtherEnd(rs[j], u))
  {
    hide Order.StrLe;
    var a, b := rs[i], rs[j];
    assert a in rs && b in rs;
    if Outward(u, a) && Inward(u, b) {
      assert InPlace(u, a, b);
      if Order.StrLe(b.subject, u) { Order.StrLeAntisymmetric(b.subject, u); }
    } else if Inward(u, a) && Outward(u, b) {
      assert InPlace(u, b, a);
    } else if Inward(u, a) && Inward(u, b) {
      Order.StrLeTotal(a.subject, a.subject);
    }
  }

  /** What the method returns at `u`, for a graph whose records sit in their slots. */
  ghost predicate Listed(g: Graph, u: string, rs: seq<Relation>) {
    Order.Sorted(rs, RelationLe) && forall r :: r in rs <==> Touches(g, u, r)
  }

  /** For a graph: the list at `u` ascends by neighbour iff no edge into `u` is out
      of place against an edge out of `u`. */
  lemma NeighboursAscendIff(g: Graph, u: string, rs: seq<Relation>)
    requires WellFormed(g) && Listed(g, u, rs)
    ensures Ascending(rs, u) <==>
      forall a, b :: Touches(g, u, a) && Touches(g, u, b) && Outward(u, a) && Inward(u, b) ==> InPlace(u, a, b)
  {
    hide InPlace;
    forall r | r in rs ensures Outward(u, r) || Inward(u, r) {
      assert Touches(g, u, r);
      var s :| s in g.edges && (s.0 == u || s.1 == u) && g.edges[s] == r;
      SlotIsUnordered(r.subject, r.obj);
    }
    AscendingIff(rs, u);
  }

  /** When every edge points from the smaller id to the larger, every list ascends. */
  lemma ForwardEdgesAscend(g: Graph, u: string, rs: seq<Relation>)
    requires WellFormed(g) && Listed(g, u, rs)
    requires forall s :: s in g.edges ==> Order.StrLe(g.edges[s].subject, g.edges[s].obj)
    ensures Ascending(rs, u)
  {
    NeighboursAscendIff(g, u, rs);
    forall a, b | Touches(g, u, a) && Touches(g, u, b) && Outward(u, a) && Inward(u, b) ensures InPlace(u, a, b) {
      Order.StrLeTransitive(b.subject, u, a.obj);
    }
  }

  /** The graph built from chunks is such a graph. */
  lemma BuiltNeighboursAscend(b: Builder, chunks: seq<Chunk>, g: Graph, nameToId: map<string, string>, u: string,
                              rs: seq<Relation>)
    requires Built(b, chunks, g, nameToId) && Listed(g, u, rs)
    ensures Ascending(rs, u)
  {
    hide Built, WellFormed, Slotted, Listed, Ascending;
    BuiltIsTraversable(b, chunks, g, nameToId);
    forall s | s in g.edges ensures Order.StrLe(g.edges[s].subject, g.edges[s].obj) {
      BuiltSlot(b, chunks, g, nameToId, s);
    }
    ForwardEdgesAscend(g, u, rs);
  }

  const BOB := Entity("b", "B", "PERSON", [Span("c", 0, 1)])
  const CAL := Entity("c", "C", "PERSON", [Span("c", 0, 1)])
  const ZOE := Entity("z", "Z", "PERSON", [Span("c", 0, 1)])
  const TO_ZOE := Relation("b", "z", "ALLY_OF", 1, [Span("c", 0, 1)])
  const FROM_CAL := Relation("c", "b", "ENEMY_OF", 1, [Span("c", 0, 1)])

  /** An edge from `c` back to `b` comes after the edge from `b` to `z`: neighbour `z` is listed before `c`. */
  lemma BackwardEdgeBreaksOrder() returns (g: Graph, rs: seq<Relation>)
    ensures WellFormed(g) && Slotted(g) && Listed(g, "b", rs) && !Ascending(rs, "b")
  {
    g := Graph(map["b" := BOB, "c" := CAL, "z" := ZOE], map[("b", "z") := TO_ZOE, ("b", "c") := FROM_CAL]);
    rs := [TO_ZOE, FROM_CAL];
    assert OtherEnd(rs[0], "b") == "z" && OtherEnd(rs[1], "b") == "c";
    assert !Order.StrLe("z", "c") && !Order.StrLe("c", "b") && Order.StrLe("b", "c") && Order.StrLe("b", "z");
    assert RelationLe(TO_ZOE, FROM_CAL);
    assert g.edges[("b", "z")] == TO_ZOE && g.edges[("b", "c")] == FROM_CAL;
  }
}
