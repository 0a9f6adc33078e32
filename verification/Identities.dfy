/** The content hashes that identify entities and events: when two inputs are hashed as one. */
module Identities {
  import opened Schemas
  import opened Keys
  import opened Provenance
  import opened Construction
  import Order

  /** `":".join(pieces)` */
  function Join(pieces: seq<string>): string {
    if pieces == [] then "" else if |pieces| == 1 then pieces[0] else pieces[0] + ":" + Join(pieces[1..])
  }

  /** Identifiers as the code makes them: hexadecimal, so neither empty nor with a colon. */
  predicate AreIds(pieces: seq<string>) { forall p :: p in pieces ==> p != "" && NoColon(p) }

  lemma {:induction false} JoinedApart(a: seq<string>, b: seq<string>)
    requires AreIds(a) && AreIds(b) && Join(a) == Join(b)
    ensures a == b
  {
    if |a| >= 2 && |b| >= 2 {
      ColonFreePrefix(a[0], b[0], Join(a[1..]), Join(b[1..]));
      JoinedApart(a[1..], b[1..]);
      assert a == [a[0]] + a[1..] && b == [b[0]] + b[1..];
    } else {
      JoinHasColonIff(a);
      JoinHasColonIff(b);
    }
  }

  lemma JoinHasColonIff(a: seq<string>)
    requires AreIds(a)
    ensures ':' in Join(a) <==> |a| >= 2
    ensures Join(a) == "" <==> a == []
  {
    if |a| >= 2 { assert Join(a)[|a[0]|] == ':'; }
    if |a| == 1 { assert a[0] in a; }
  }

  lemma {:induction false} JoinOfTwo(a: seq<string>, b: seq<string>)
    requires a != [] && b != []
    ensures Join(a + b) == Join(a) + ":" + Join(b)
  {
    assert (a + b)[0] == a[0] && (a + b)[1..] == a[1..] + b;
    if |a| > 1 {
      JoinOfTwo(a[1..], b);
      assert a[0] + ":" + (Join(a[1..]) + ":" + Join(b)) == (a[0] + ":" + Join(a[1..])) + ":" + Join(b);
    }
  }

  /** A colon in joined identifiers stands between two of them. */
  lemma {:induction false} JoinSplitsAt(pieces: seq<string>, y: string, z: string) returns (k: nat)
    requires AreIds(pieces) && Join(pieces) == y + ":" + z
    ensures 1 <= k < |pieces| && y == Join(pieces[..k]) && z == Join(pieces[k..])
  {
    assert Join(pieces)[|y|] == ':';
    JoinHasColonIff(pieces);
    var rest := pieces[1..];
    assert NoColon(pieces[0]) by { assert pieces[0] in pieces; }
    if NoColon(y) {
      ColonFreePrefix(pieces[0], y, Join(rest), z);
      k := 1;
      assert pieces[..1] == [pieces[0]];
    } else {
      var head, tail := SplitFirst(y);
      assert y + ":" + z == head + ":" + (tail + ":" + z);
      ColonFreePrefix(pieces[0], head, Join(rest), tail + ":" + z);
      var m := JoinSplitsAt(rest, tail, z);
      k := m + 1;
      assert pieces[..k] == [pieces[0]] + rest[..m] && pieces[..k][1..] == rest[..m] && pieces[k..] == rest[m..];
    }
  }

  lemma {:induction false} SplitFirst(s: string) returns (head: string, tail: string)
    requires ':' in s
    ensures NoColon(head) && s == head + ":" + tail
  {
    if s[0] == ':' {
      head, tail := "", s[1..];
    } else {
      head, tail := SplitFirst(s[1..]);
      head := [s[0]] + head;
      assert s == [s[0]] + s[1..];
    }
  }

  // ----- entities -----

  /** `make_entity_id` */
  function EntityId(digest: string -> string, name: string, kind: string): string { digest(name + ":" + kind) }

  /** An entity type holds no colon, so an id stands for one name and one type. */
  lemma EntityIdsDiffer(digest: string -> string, name: string, kind: string, other: string, otherKind: string)
    requires Injective(digest) && NoColon(kind) && NoColon(otherKind)
    ensures EntityId(digest, name, kind) == EntityId(digest, other, otherKind) <==> name == other && kind == otherKind
  {
    if EntityId(digest, name, kind) == EntityId(digest, other, otherKind) {
      ColonFreeSuffix(name, other, kind, otherKind);
    }
  }

  // ----- events -----

  /** Numbers are written without colons, different ones differently. */
  ghost predicate Decimal(show: nat -> string) {
    (forall n :: NoColon(show(n))) && forall m, n :: show(m) == show(n) ==> m == n
  }

  function Actors(predicateName: string, participants: seq<string>): string {
    predicateName + ":" + Join(participants)
  }

  /** `make_event_id`, of participants already sorted. */
  function EventId(digest: string -> string, show: nat -> string): EventHash {
    (predicateName: string, participants: seq<string>, chunk: string, start: nat) =>
      digest(Actors(predicateName, participants) + ":" + chunk + ":" + show(start))
  }

  /** Ids agree exactly when the anchors do and predicate and participants join to one text. */
  lemma EventIdsAgreeIff(digest: string -> string, show: nat -> string, p: string, ps: seq<string>, c: string, n: nat,
                         q: string, qs: seq<string>, d: string, m: nat)
    requires Injective(digest) && Decimal(show) && NoColon(c) && NoColon(d)
    ensures EventId(digest, show)(p, ps, c, n) == EventId(digest, show)(q, qs, d, m) <==>
      Actors(p, ps) == Actors(q, qs) && c == d && n == m
  {
    if EventId(digest, show)(p, ps, c, n) == EventId(digest, show)(q, qs, d, m) {
      ColonFreeSuffix(Actors(p, ps) + ":" + c, Actors(q, qs) + ":" + d, show(n), show(m));
      ColonFreeSuffix(Actors(p, ps), Actors(q, qs), c, d);
    }
  }

  /** Predicates without a colon are told apart from the participants after them. */
  lemma ColonFreePredicates(p: string, ps: seq<string>, q: string, qs: seq<string>)
    requires NoColon(p) && NoColon(q) && AreIds(ps) && AreIds(qs)
    ensures Actors(p, ps) == Actors(q, qs) <==> p == q && ps == qs
  {
    if Actors(p, ps) == Actors(q, qs) {
      ColonFreePrefix(p, q, Join(ps), Join(qs));
      JoinedApart(ps, qs);
    }
  }

  ghost predicate AreSortedIds(ps: seq<string>) { AreIds(ps) && Order.Sorted(ps, Order.StrLe) }

  /** Two predicates can be hashed as one event exactly when the longer is the
      shorter followed by the ids of some participants. */
  lemma PredicatesCollideIff(p: string, q: string)
    requires |p| < |q|
    ensures (exists ps, qs :: AreSortedIds(ps) && AreSortedIds(qs) && Actors(p, ps) == Actors(q, qs)) <==>
      exists front :: AreSortedIds(front) && front != [] && q == Actors(p, front)
  {
    hide Order.StrLe;
    if ps, qs :| AreSortedIds(ps) && AreSortedIds(qs) && Actors(p, ps) == Actors(q, qs) {
      var front := Absorbed(p, ps, q, qs);
    }
    if front :| AreSortedIds(front) && front != [] && q == Actors(p, front) {
      var ps, qs := AbsorbedAgain(p, q, front);
    }
  }

  lemma Absorbed(p: string, ps: seq<string>, q: string, qs: seq<string>) returns (front: seq<string>)
    requires AreSortedIds(ps) && AreIds(qs) && Actors(p, ps) == Actors(q, qs) && |p| < |q|
    ensures AreSortedIds(front) && front != [] && q == Actors(p, front)
  {
    hide Order.StrLe;
    var whole, y := Actors(p, ps), q[|p| + 1..];
    assert whole[|p|] == ':' && q[|p|] == whole[|p|] && q[..|p|] == whole[..|p|] == p;
    assert q == p + ":" + y;
    assert Join(ps) == whole[|p| + 1..] == y + ":" + Join(qs);
    var k := JoinSplitsAt(ps, y, Join(qs));
    front := ps[..k];
    forall x | x in front ensures x in ps { }
  }

  lemma AbsorbedAgain(p: string, q: string, front: seq<string>) returns (ps: seq<string>, qs: seq<string>)
    requires AreSortedIds(front) && front != [] && q == Actors(p, front)
    ensures AreSortedIds(ps) && AreSortedIds(qs) && Actors(p, ps) == Actors(q, qs)
  {
    hide Order.StrLe;
    var last := front[|front| - 1];
    ps, qs := front + [last], [last];
    assert last in front;
    Order.StrLeTotal(last, last);
    JoinOfTwo(front, [last]);
    assert p + ":" + (Join(front) + ":" + last) == (p + ":" + Join(front)) + ":" + last;
  }

  /** Whatever their ids, the event "met:a" of `b` and the event "met" of `a` and `b` have one id. */
  lemma PredicateAbsorbsParticipant(digest: string -> string, show: nat -> string, a: string, b: string, c: string,
                                    n: nat)
    ensures EventId(digest, show)("met:" + a, [b], c, n) == EventId(digest, show)("met", [a, b], c, n)
  {
    assert Join([a, b]) == a + ":" + Join([b]);
    assert "met:" + a == "met" + ":" + a;
    assert Actors("met:" + a, [b]) == Actors("met", [a, b]);
  }

  /** The sorted participants of a fact that is not dangling. */
  function Participants(ids: map<Ref, string>, f: Fact<RawEvent>): seq<string>
    requires ResolvedParticipants(ids, f, f.raw.participants).Some?
  {
    Order.SortBy(Names(ResolvedParticipants(ids, f, f.raw.participants).value), Order.StrLe)
  }

  /** When the code takes two facts for one event. */
  lemma SameEventIff(ids: map<Ref, string>, digest: string -> string, show: nat -> string, f: Fact<RawEvent>,
                     h: Fact<RawEvent>)
    requires Injective(digest) && Decimal(show) && NoColon(AnchorOf(f).chunkId) && NoColon(AnchorOf(h).chunkId)
    requires ResolvedParticipants(ids, f, f.raw.participants).Some?
    requires ResolvedParticipants(ids, h, h.raw.participants).Some?
    ensures EventOf(ids, EventId(digest, show), f) == EventOf(ids, EventId(digest, show), h) <==>
      && AnchorOf(f).chunkId == AnchorOf(h).chunkId && AnchorOf(f).start == AnchorOf(h).start
      && Actors(f.raw.predicateName, Participants(ids, f)) == Actors(h.raw.predicateName, Participants(ids, h))
  {
    hide ResolvedParticipants, Order.SortBy, EventId;
    EventIdsAgreeIff(digest, show, f.raw.predicateName, Participants(ids, f), AnchorOf(f).chunkId, AnchorOf(f).start,
                     h.raw.predicateName, Participants(ids, h), AnchorOf(h).chunkId, AnchorOf(h).start);
  }
}
