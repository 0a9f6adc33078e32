/** The graph fingerprint: when it is the same whatever the order of its inputs
    (`lncvs.graph.construction.fingerprint`). */
module Fingerprint {
  import opened Schemas
  import opened Grouping
  import opened Keys
  import opened Identities
  import opened Provenance
  import opened EntityGraphs
  import opened Construction
  import opened EntityResolution
  import Order

  // ----- sorted lines of any records -----

  function Ended(u: string): string { u + "\n" }

  /** The lines of the records, each with its newline. */
  function Lines<T>(line: T -> string, xs: seq<T>): string {
    if xs == [] then "" else Ended(line(xs[0])) + Lines(line, xs[1..])
  }

  function Sorted<T>(line: T -> string, le: (T, T) -> bool, xs: seq<T>): string { Lines(line, Order.SortBy(xs, le)) }

  /** Either line may come first. */
  predicate Commute(u: string, v: string) { Ended(u) + Ended(v) == Ended(v) + Ended(u) }

  /** Records that the sort does not separate have lines whose order does not show. */
  ghost predicate TiesCommute<T(!new)>(line: T -> string, le: (T, T) -> bool, xs: seq<T>) {
    forall x, y :: x in xs && y in xs && le(x, y) && le(y, x) ==> Commute(line(x), line(y))
  }

  lemma {:induction false} LinesOfTwo<T>(line: T -> string, a: seq<T>, b: seq<T>)
    ensures Lines(line, a + b) == Lines(line, a) + Lines(line, b)
  {
    hide Lines, Ended;
    if a == [] {
      assert a + b == b;
      NoLines(line);
    } else {
      LinesOfTwo(line, a[1..], b);
      LinesOfFirst(line, a);
      LinesOfFirst(line, a + b);
      assert (a + b)[1..] == a[1..] + b;
      Associative(Ended(line(a[0])), Lines(line, a[1..]), Lines(line, b));
    }
  }

  /** A record whose line commutes with every line of a list may stand before or after it. */
  lemma {:induction false} MoveToFront<T>(line: T -> string, a: seq<T>, x: T)
    requires forall y :: y in a ==> Commute(line(y), line(x))
    ensures Lines(line, a + [x]) == Lines(line, [x] + a)
  {
    hide Ended, Lines;
    var u := Ended(line(x));
    LinesOfOne(line, x);
    LinesOfTwo(line, a, [x]);
    LinesOfTwo(line, [x], a);
    if a == [] {
      assert a + [x] == [x] + a;
    } else {
      MoveToFront(line, a[1..], x);
      LinesOfTwo(line, a[1..], [x]);
      LinesOfTwo(line, [x], a[1..]);
      LinesOfFirst(line, a);
      assert a[0] in a;
      SwapThrough(u, Ended(line(a[0])), Lines(line, a[1..]));
    }
  }

  lemma SwapThrough(u: string, v: string, rest: string)
    requires v + u == u + v && rest + u == u + rest
    ensures (v + rest) + u == u + (v + rest)
  {
    Associative(v, rest, u);
    Associative(v, u, rest);
    Associative(u, v, rest);
  }

  lemma LinesOfOne<T>(line: T -> string, x: T)
    ensures Lines(line, [x]) == Ended(line(x))
  {
    assert Lines(line, [x][1..]) == "";
  }

  /** Two sorted lists of the same records have the same lines when ties commute. */
  lemma {:induction false} SortedLinesAgree<T(!new)>(line: T -> string, le: (T, T) -> bool, a: seq<T>, b: seq<T>)
    requires Order.TotalPreorder(le) && Order.Sorted(a, le) && Order.Sorted(b, le) && multiset(a) == multiset(b)
    requires TiesCommute(line, le, a)
    ensures Lines(line, a) == Lines(line, b)
  {
    hide Order.TotalPreorder, Commute, Lines;
    assert |a| == |multiset(a)| == |multiset(b)| == |b|;
    if a == [] {
      assert a == b;
    } else {
      var j := Found(a, b);
      FrontTies(line, le, a, b, j);
      TakeFromInside(line, b, j);
      Order.HeadAndTail(a);
      WithoutOne(b, j);
      var rest := b[..j] + b[j + 1..];
      Order.Cancel(multiset(a[1..]), multiset(rest), a[0]);
      TiesOfRest(line, le, a);
      SortedLinesAgree(line, le, a[1..], rest);
      LinesOfFirst(line, a);
    }
  }

  lemma NoLines<T>(line: T -> string)
    ensures Lines(line, []) == ""
  {
  }

  lemma LinesOfFirst<T>(line: T -> string, a: seq<T>)
    requires a != []
    ensures Lines(line, a) == Ended(line(a[0])) + Lines(line, a[1..])
  {
  }

  lemma TiesOfRest<T(!new)>(line: T -> string, le: (T, T) -> bool, a: seq<T>)
    requires TiesCommute(line, le, a) && a != []
    ensures TiesCommute(line, le, a[1..])
  {
    hide Commute;
    forall x | x in a[1..] ensures x in a { }
  }

  lemma TakeFromInside<T>(line: T -> string, b: seq<T>, j: nat)
    requires j < |b| && forall y :: y in b[..j] ==> Commute(line(y), line(b[j]))
    ensures Lines(line, b) == Ended(line(b[j])) + Lines(line, b[..j] + b[j + 1..])
  {
    hide Commute, Lines, Ended;
    assert b == (b[..j] + [b[j]]) + b[j + 1..];
    MoveOut(line, b[..j], b[j], b[j + 1..]);
  }

  lemma MoveOut<T>(line: T -> string, front: seq<T>, x: T, rest: seq<T>)
    requires forall y :: y in front ==> Commute(line(y), line(x))
    ensures Lines(line, (front + [x]) + rest) == Ended(line(x)) + Lines(line, front + rest)
  {
    hide Commute, Lines, Ended;
    MoveToFront(line, front, x);
    LinesOfTwo(line, front + [x], rest);
    LinesOfTwo(line, [x], front);
    LinesOfTwo(line, front, rest);
    LinesOfOne(line, x);
    Associative(Ended(line(x)), Lines(line, front), Lines(line, rest));
  }

  lemma Associative(a: string, b: string, c: string)
    ensures (a + b) + c == a + (b + c)
  {
  }

  lemma Found<T(!new)>(a: seq<T>, b: seq<T>) returns (j: nat)
    requires multiset(a) == multiset(b) && a != []
    ensures j < |b| && b[j] == a[0]
  {
    assert a[0] in multiset(b);
    j :| 0 <= j < |b| && b[j] == a[0];
  }

  lemma WithoutOne<T>(b: seq<T>, j: nat)
    requires j < |b|
    ensures multiset(b) == multiset(b[..j] + b[j + 1..]) + multiset{b[j]}
  {
    assert b == b[..j] + [b[j]] + b[j + 1..];
  }

  /** What stands before the least record in another sorted list ties with it. */
  lemma FrontTies<T(!new)>(line: T -> string, le: (T, T) -> bool, a: seq<T>, b: seq<T>, j: nat)
    requires Order.TotalPreorder(le) && Order.Sorted(a, le) && Order.Sorted(b, le) && multiset(a) == multiset(b)
    requires TiesCommute(line, le, a) && a != [] && j < |b| && b[j] == a[0]
    ensures forall y :: y in b[..j] ==> Commute(line(y), line(a[0]))
  {
    hide Commute;
    forall y | y in b[..j] ensures Commute(line(y), line(a[0])) {
      var k :| 0 <= k < j && b[k] == y;
      assert le(b[k], b[j]);
      assert y in multiset(b) && y in multiset(a);
      Order.HeadIsLeast(a, y, le);
      assert a[0] in a && y in a;
    }
  }

  /** Two tied records in front keep their order and end up side by side. */
  lemma {:induction false} InsertPair<T(!new)>(x: T, y: T, s: seq<T>, le: (T, T) -> bool) returns (k: nat)
    requires Order.TotalPreorder(le) && le(x, y) && le(y, x)
    ensures k <= |s| && Order.Insert(x, Order.Insert(y, s, le), le) == s[..k] + [x, y] + s[k..]
    ensures Order.Insert(y, Order.Insert(x, s, le), le) == s[..k] + [y, x] + s[k..]
  {
    hide Order.TotalPreorder;
    if s == [] {
      k := 0;
    } else if le(y, s[0]) {
      TieBothWays(x, y, s[0], le);
      k := 0;
      assert Order.Insert(y, s, le) == [y] + s && Order.Insert(x, s, le) == [x] + s;
      assert Order.Insert(x, [y] + s, le) == [x] + ([y] + s) && Order.Insert(y, [x] + s, le) == [y] + ([x] + s);
    } else {
      TieBothWays(y, x, s[0], le);
      var m := InsertPair(x, y, s[1..], le);
      k := m + 1;
      var p, q := Order.Insert(y, s[1..], le), Order.Insert(x, s[1..], le);
      assert Order.Insert(y, s, le) == [s[0]] + p && Order.Insert(x, s, le) == [s[0]] + q;
      assert ([s[0]] + p)[1..] == p && ([s[0]] + q)[1..] == q;
      assert s[..k] == [s[0]] + s[1..][..m] && s[k..] == s[1..][m..];
    }
  }

  lemma TieBothWays<T(!new)>(x: T, y: T, z: T, le: (T, T) -> bool)
    requires Order.TotalPreorder(le) && le(x, y) && le(y, x)
    ensures le(x, z) <==> le(y, z)
  {
  }

  /** Tied records whose lines do not commute make two orders of one list show. */
  lemma OrderShows<T(!new)>(line: T -> string, le: (T, T) -> bool, x: T, y: T, rest: seq<T>)
    requires Order.TotalPreorder(le) && le(x, y) && le(y, x) && !Commute(line(x), line(y))
    ensures Sorted(line, le, [x, y] + rest) != Sorted(line, le, [y, x] + rest)
  {
    hide Order.TotalPreorder, Order.SortBy, Lines;
    var s := Order.SortBy(rest, le);
    var k := InsertPair(x, y, s, le);
    SortTwo(x, y, rest, le);
    SortTwo(y, x, rest, le);
    PairInside(line, s[..k], x, y, s[k..]);
    PairInside(line, s[..k], y, x, s[k..]);
    var a, b, u, v := Lines(line, s[..k]), Lines(line, s[k..]), line(x), line(y);
    SameAround(a, Ended(u) + Ended(v), Ended(v) + Ended(u), b);
  }

  lemma SortTwo<T>(x: T, y: T, rest: seq<T>, le: (T, T) -> bool)
    ensures Order.SortBy([x, y] + rest, le) == Order.Insert(x, Order.Insert(y, Order.SortBy(rest, le), le), le)
  {
    var all := [x, y] + rest;
    assert all[1..] == [y] + rest && ([y] + rest)[1..] == rest;
  }

  lemma PairInside<T>(line: T -> string, a: seq<T>, x: T, y: T, b: seq<T>)
    ensures Lines(line, a + [x, y] + b) == Lines(line, a) + (Ended(line(x)) + Ended(line(y))) + Lines(line, b)
  {
    hide Ended, Lines;
    LinesOfTwo(line, a + [x, y], b);
    LinesOfTwo(line, a, [x, y]);
    LinesOfTwo(line, [x], [y]);
    LinesOfOne(line, x);
    LinesOfOne(line, y);
    assert [x] + [y] == [x, y];
  }

  lemma SameAround(a: string, u: string, v: string, b: string)
    requires |u| == |v|
    ensures a + u + b == a + v + b ==> u == v
  {
    if a + u + b == a + v + b {
      assert (a + u + b)[|a|..|a| + |u|] == u && (a + v + b)[|a|..|a| + |v|] == v;
    }
  }

  /** The sorted lines are one text for every order of the records exactly when ties commute. */
  lemma OrderFreeIff<T(!new)>(line: T -> string, le: (T, T) -> bool, xs: seq<T>)
    requires Order.TotalPreorder(le)
    ensures (forall ys :: multiset(ys) == multiset(xs) ==> Sorted(line, le, ys) == Sorted(line, le, xs))
            <==> TiesCommute(line, le, xs)
  {
    hide Order.TotalPreorder, Order.SortBy, Lines, Commute;
    if TiesCommute(line, le, xs) {
      forall ys | multiset(ys) == multiset(xs) ensures Sorted(line, le, ys) == Sorted(line, le, xs) {
        Order.SortByCorrect(xs, le);
        Order.SortByCorrect(ys, le);
        SortedLinesAgree(line, le, Order.SortBy(xs, le), Order.SortBy(ys, le));
      }
    } else {
      var x, y :| x in xs && y in xs && le(x, y) && le(y, x) && !Commute(line(x), line(y));
      assert x != y by { SameCommutes(line(x)); }
      var rest := PairFirst(xs, x, y);
      OrderShows(line, le, x, y, rest);
      assert multiset([x, y] + rest) == multiset([y, x] + rest);
    }
  }

  lemma SameCommutes(u: string)
    ensures Commute(u, u)
  {
  }

  lemma PairFirst<T(!new)>(xs: seq<T>, x: T, y: T) returns (rest: seq<T>)
    requires x in xs && y in xs && x != y
    ensures multiset([x, y] + rest) == multiset(xs)
  {
    var i :| 0 <= i < |xs| && xs[i] == x;
    var one := xs[..i] + xs[i + 1..];
    WithoutOne(xs, i);
    assert y in multiset(one);
    var j :| 0 <= j < |one| && one[j] == y;
    rest := one[..j] + one[j + 1..];
    WithoutOne(one, j);
    assert multiset([x, y] + rest) == multiset{x, y} + multiset(rest);
  }

  /** Lines without a newline inside commute only when they are equal. */
  lemma CommuteIff(u: string, v: string)
    requires '\n' !in u && '\n' !in v
    ensures Commute(u, v) <==> u == v
  {
    if Commute(u, v) {
      if |u| < |v| { NewlineInside(u, v); }
      if |v| < |u| { NewlineInside(v, u); }
      assert u == (Ended(u) + Ended(v))[..|u|] && v == (Ended(v) + Ended(u))[..|v|];
    }
  }

  lemma NewlineInside(u: string, v: string)
    requires Commute(u, v) && |u| < |v|
    ensures '\n' in v
  {
    assert v[|u|] == (Ended(v) + Ended(u))[|u|] == (Ended(u) + Ended(v))[|u|] == '\n';
  }

  // ----- the fingerprint -----

  function SpanText(show: nat -> string, sp: Span): string {
    sp.chunkId + ":" + show(sp.start) + ":" + show(sp.end)
  }

  function SpansText(show: nat -> string, spans: seq<Span>): string {
    if spans == [] then ""
    else if |spans| == 1 then SpanText(show, spans[0])
    else SpanText(show, spans[0]) + "," + SpansText(show, spans[1..])
  }

  function EntityLine(show: nat -> string): Entity -> string {
    (e: Entity) => "E:" + e.id + ":" + e.name + ":" + e.kind + ":" + SpansText(show, e.provenance)
  }

  function RelationLine(show: nat -> string): Relation -> string {
    (r: Relation) => "R:" + r.subject + ":" + r.obj + ":" + r.kind + ":" + show(r.weight)
  }

  function EventLine(): Event -> string {
    (v: Event) =>
      "V:" + v.id + ":" + v.predicateName + ":" + v.kind + ":" + if v.expression.Some? then v.expression.value else ""
  }

  function ParticipationLine(show: nat -> string): Participation -> string {
    (p: Participation) => "P:" + p.entity + ":" + p.event + ":" + p.role + ":" + show(p.weight)
  }

  type Triple = (string, string, string)

  predicate TripleLe(a: Triple, b: Triple) {
    if a.0 != b.0 then Order.StrLe(a.0, b.0) else if a.1 != b.1 then Order.StrLe(a.1, b.1) else Order.StrLe(a.2, b.2)
  }

  function EndsOf(r: Relation): Triple { (r.subject, r.obj, r.kind) }

  predicate EndsLe(a: Relation, b: Relation) { TripleLe(EndsOf(a), EndsOf(b)) }

  predicate EventLe(a: Event, b: Event) { Order.StrLe(a.id, b.id) }

  predicate RoleLe(a: Participation, b: Participation) { TripleLe(RoleOf(a), RoleOf(b)) }

  lemma TriplesTie(a: Triple, b: Triple)
    requires TripleLe(a, b) && TripleLe(b, a)
    ensures a == b
  {
    hide Order.StrLe;
    if a.0 != b.0 { Order.StrLeAntisymmetric(a.0, b.0); }
    if a.1 != b.1 { Order.StrLeAntisymmetric(a.1, b.1); }
    Order.StrLeAntisymmetric(a.2, b.2);
  }

  lemma TriplesTotal(a: Triple, b: Triple)
    ensures TripleLe(a, b) || TripleLe(b, a)
  {
    hide Order.StrLe;
    Order.StrLeTotal(a.0, b.0);
    Order.StrLeTotal(a.1, b.1);
    Order.StrLeTotal(a.2, b.2);
  }

  lemma TriplesTransitive(a: Triple, b: Triple, c: Triple)
    requires TripleLe(a, b) && TripleLe(b, c)
    ensures TripleLe(a, c)
  {
    hide Order.StrLe;
    if a.0 != b.0 && b.0 != c.0 {
      Order.StrLeTransitive(a.0, b.0, c.0);
      if a.0 == c.0 { Order.StrLeAntisymmetric(a.0, b.0); }
    } else if a.0 == b.0 == c.0 {
      if a.1 != b.1 && b.1 != c.1 {
        Order.StrLeTransitive(a.1, b.1, c.1);
        if a.1 == c.1 { Order.StrLeAntisymmetric(a.1, b.1); }
      } else if a.1 == b.1 == c.1 {
        Order.StrLeTransitive(a.2, b.2, c.2);
      }
    }
  }

  lemma AllTotal()
    ensures Order.TotalPreorder(IdLe) && Order.TotalPreorder(EndsLe)
    ensures Order.TotalPreorder(EventLe) && Order.TotalPreorder(RoleLe)
  {
    hide TripleLe;
    IdLeIsTotal();
    forall a, b ensures EndsLe(a, b) || EndsLe(b, a) { TriplesTotal(EndsOf(a), EndsOf(b)); }
    forall a, b, c | EndsLe(a, b) && EndsLe(b, c) ensures EndsLe(a, c) {
      TriplesTransitive(EndsOf(a), EndsOf(b), EndsOf(c));
    }
    forall a, b ensures RoleLe(a, b) || RoleLe(b, a) { TriplesTotal(RoleOf(a), RoleOf(b)); }
    forall a, b, c | RoleLe(a, b) && RoleLe(b, c) ensures RoleLe(a, c) {
      TriplesTransitive(RoleOf(a), RoleOf(b), RoleOf(c));
    }
    forall a, b ensures EventLe(a, b) || EventLe(b, a) { Order.StrLeTotal(a.id, b.id); }
    forall a, b, c | EventLe(a, b) && EventLe(b, c) ensures EventLe(a, c) {
      Order.StrLeTransitive(a.id, b.id, c.id);
    }
  }

  /** The four collections of a graph. */
  datatype Content = Content(entities: seq<Entity>, relations: seq<Relation>, events: seq<Event>,
                             participations: seq<Participation>)

  function Body(show: nat -> string, c: Content): string {
    Sorted(EntityLine(show), IdLe, c.entities) + Sorted(RelationLine(show), EndsLe, c.relations)
    + Sorted(EventLine(), EventLe, c.events) + Sorted(ParticipationLine(show), RoleLe, c.participations)
  }

  /** `"\n".join(lines)`: no newline after the last. */
  function Chomped(text: string): string { if text == "" then "" else text[..|text| - 1] }

  /** `compute_graph_fingerprint` */
  function GraphFingerprint(digest: string -> string, show: nat -> string, c: Content): string {
    digest(Chomped(Body(show, c)))
  }

  /** The same records, each collection in any order. */
  ghost predicate Reordered(c: Content, d: Content) {
    && multiset(d.entities) == multiset(c.entities) && multiset(d.relations) == multiset(c.relations)
    && multiset(d.events) == multiset(c.events) && multiset(d.participations) == multiset(c.participations)
  }

  ghost predicate AllTiesCommute(show: nat -> string, c: Content) {
    && TiesCommute(EntityLine(show), IdLe, c.entities) && TiesCommute(RelationLine(show), EndsLe, c.relations)
    && TiesCommute(EventLine(), EventLe, c.events) && TiesCommute(ParticipationLine(show), RoleLe, c.participations)
  }

  lemma {:induction false} LinesEnd<T>(line: T -> string, xs: seq<T>)
    ensures Lines(line, xs) == "" <==> xs == []
    ensures xs != [] ==> Lines(line, xs)[|Lines(line, xs)| - 1] == '\n'
  {
    if xs != [] { LinesEnd(line, xs[1..]); }
  }

  lemma SortedEnd<T(!new)>(line: T -> string, le: (T, T) -> bool, xs: seq<T>)
    requires Order.TotalPreorder(le)
    ensures var s := Sorted(line, le, xs); s == "" || s[|s| - 1] == '\n'
  {
    hide Order.SortBy, Lines;
    LinesEnd(line, Order.SortBy(xs, le));
  }

  lemma BodyEnds(show: nat -> string, c: Content)
    ensures var s := Body(show, c); s == "" || s[|s| - 1] == '\n'
  {
    hide Sorted, Order.TotalPreorder;
    AllTotal();
    SortedEnd(EntityLine(show), IdLe, c.entities);
    SortedEnd(RelationLine(show), EndsLe, c.relations);
    SortedEnd(EventLine(), EventLe, c.events);
    SortedEnd(ParticipationLine(show), RoleLe, c.participations);
  }

  lemma SameChomped(s: string, t: string)
    requires Chomped(s) == Chomped(t) && |s| == |t|
    requires (s == "" || s[|s| - 1] == '\n') && (t == "" || t[|t| - 1] == '\n')
    ensures s == t
  {
    if s != "" { assert s == Chomped(s) + "\n" && t == Chomped(t) + "\n"; }
  }

  lemma {:induction false} LinesLength<T(!new)>(line: T -> string, xs: seq<T>, ys: seq<T>)
    requires multiset(xs) == multiset(ys)
    ensures |Lines(line, xs)| == |Lines(line, ys)|
    decreases |xs|
  {
    hide Ended;
    assert |xs| == |multiset(xs)| == |multiset(ys)| == |ys|;
    if xs != [] {
      var j := Found(xs, ys);
      var front, rest := ys[..j], ys[j + 1..];
      Order.HeadAndTail(xs);
      WithoutOne(ys, j);
      Order.Cancel(multiset(xs[1..]), multiset(front + rest), xs[0]);
      LinesLength(line, xs[1..], front + rest);
      LinesOfTwo(line, front, rest);
      LinesOfTwo(line, front, [ys[j]] + rest);
      assert ys == front + ([ys[j]] + rest);
      LinesOfFirst(line, [ys[j]] + rest);
    }
  }

  lemma SortedLength<T(!new)>(line: T -> string, le: (T, T) -> bool, xs: seq<T>, ys: seq<T>)
    requires Order.TotalPreorder(le) && multiset(xs) == multiset(ys)
    ensures |Sorted(line, le, xs)| == |Sorted(line, le, ys)|
  {
    hide Order.SortBy, Lines;
    Order.SortByCorrect(xs, le);
    Order.SortByCorrect(ys, le);
    LinesLength(line, Order.SortBy(xs, le), Order.SortBy(ys, le));
  }

  /** Over the same records, fingerprints agree exactly when each collection's sorted lines do. */
  lemma FingerprintsAgreeIff(digest: string -> string, show: nat -> string, c: Content, d: Content)
    requires Injective(digest) && Reordered(c, d)
    ensures GraphFingerprint(digest, show, c) == GraphFingerprint(digest, show, d) <==>
      && Sorted(EntityLine(show), IdLe, c.entities) == Sorted(EntityLine(show), IdLe, d.entities)
      && Sorted(RelationLine(show), EndsLe, c.relations) == Sorted(RelationLine(show), EndsLe, d.relations)
      && Sorted(EventLine(), EventLe, c.events) == Sorted(EventLine(), EventLe, d.events)
      && Sorted(ParticipationLine(show), RoleLe, c.participations)
           == Sorted(ParticipationLine(show), RoleLe, d.participations)
  {
    hide Sorted, Order.TotalPreorder;
    AllTotal();
    SortedLength(EntityLine(show), IdLe, c.entities, d.entities);
    SortedLength(RelationLine(show), EndsLe, c.relations, d.relations);
    SortedLength(EventLine(), EventLe, c.events, d.events);
    SortedLength(ParticipationLine(show), RoleLe, c.participations, d.participations);
    if GraphFingerprint(digest, show, c) == GraphFingerprint(digest, show, d) {
      BodyEnds(show, c);
      BodyEnds(show, d);
      SameChomped(Body(show, c), Body(show, d));
      FourParts(Sorted(EntityLine(show), IdLe, c.entities), Sorted(RelationLine(show), EndsLe, c.relations),
                Sorted(EventLine(), EventLe, c.events), Sorted(ParticipationLine(show), RoleLe, c.participations),
                Sorted(EntityLine(show), IdLe, d.entities), Sorted(RelationLine(show), EndsLe, d.relations),
                Sorted(EventLine(), EventLe, d.events), Sorted(ParticipationLine(show), RoleLe, d.participations));
    }
  }

  lemma FourParts(a: string, b: string, c: string, d: string, w: string, x: string, y: string, z: string)
    requires |a| == |w| && |b| == |x| && |c| == |y| && |d| == |z| && a + b + c + d == w + x + y + z
    ensures a == w && b == x && c == y && d == z
  {
    var s, t := a + b + c + d, w + x + y + z;
    assert a == s[..|a|] && w == t[..|w|];
    assert b == s[|a|..|a| + |b|] && x == t[|w|..|w| + |x|];
    assert c == s[|a| + |b|..|a| + |b| + |c|] && y == t[|w| + |x|..|w| + |x| + |y|];
    assert d == s[|a| + |b| + |c|..] && z == t[|w| + |x| + |y|..];
  }

  /** "Same fingerprint, regardless of input ordering" holds exactly when records
      with one sort key have lines whose order does not show. */
  lemma FingerprintOrderFreeIff(digest: string -> string, show: nat -> string, c: Content)
    requires Injective(digest)
    ensures (forall d :: Reordered(c, d) ==> GraphFingerprint(digest, show, d) == GraphFingerprint(digest, show, c))
            <==> AllTiesCommute(show, c)
  {
    hide Sorted, Order.TotalPreorder, GraphFingerprint, TiesCommute, Injective;
    AllTotal();
    OrderFreeIff(EntityLine(show), IdLe, c.entities);
    OrderFreeIff(RelationLine(show), EndsLe, c.relations);
    OrderFreeIff(EventLine(), EventLe, c.events);
    OrderFreeIff(ParticipationLine(show), RoleLe, c.participations);
    if AllTiesCommute(show, c) {
      forall d | Reordered(c, d) ensures GraphFingerprint(digest, show, d) == GraphFingerprint(digest, show, c) {
        FingerprintsAgreeIff(digest, show, c, d);
      }
    } else {
      var d := OneReordered(show, c);
      FingerprintsAgreeIff(digest, show, c, d);
    }
  }

  lemma OneReordered(show: nat -> string, c: Content) returns (d: Content)
    requires !AllTiesCommute(show, c)
    ensures Reordered(c, d)
    ensures Sorted(EntityLine(show), IdLe, c.entities) != Sorted(EntityLine(show), IdLe, d.entities)
      || Sorted(RelationLine(show), EndsLe, c.relations) != Sorted(RelationLine(show), EndsLe, d.relations)
      || Sorted(EventLine(), EventLe, c.events) != Sorted(EventLine(), EventLe, d.events)
      || Sorted(ParticipationLine(show), RoleLe, c.participations)
           != Sorted(ParticipationLine(show), RoleLe, d.participations)
  {
    hide Sorted, Order.TotalPreorder, TiesCommute;
    AllTotal();
    OrderFreeIff(EntityLine(show), IdLe, c.entities);
    OrderFreeIff(RelationLine(show), EndsLe, c.relations);
    OrderFreeIff(EventLine(), EventLe, c.events);
    OrderFreeIff(ParticipationLine(show), RoleLe, c.participations);
    if !TiesCommute(EntityLine(show), IdLe, c.entities) {
      var xs :| multiset(xs) == multiset(c.entities)
        && Sorted(EntityLine(show), IdLe, xs) != Sorted(EntityLine(show), IdLe, c.entities);
      d := c.(entities := xs);
    } else if !TiesCommute(RelationLine(show), EndsLe, c.relations) {
      var xs :| multiset(xs) == multiset(c.relations)
        && Sorted(RelationLine(show), EndsLe, xs) != Sorted(RelationLine(show), EndsLe, c.relations);
      d := c.(relations := xs);
    } else if !TiesCommute(EventLine(), EventLe, c.events) {
      var xs :| multiset(xs) == multiset(c.events)
        && Sorted(EventLine(), EventLe, xs) != Sorted(EventLine(), EventLe, c.events);
      d := c.(events := xs);
    } else {
      var xs :| multiset(xs) == multiset(c.participations)
        && Sorted(ParticipationLine(show), RoleLe, xs) != Sorted(ParticipationLine(show), RoleLe, c.participations);
      d := c.(participations := xs);
    }
  }

  // ----- of a constructed graph -----

  /** Relations, events and participations built from facts never share a sort key. */
  lemma BuiltRecordsDiffer(ids: map<Ref, string>, hash: EventHash, relationFacts: seq<Fact<RawRelation>>,
                           eventFacts: seq<Fact<RawEvent>>, show: nat -> string, c: Content)
    requires RelationsOf(ids, relationFacts, c.relations) && EventsOf(ids, hash, eventFacts, c.events)
    requires ParticipationsOf(ids, hash, eventFacts, c.participations)
    ensures AllTiesCommute(show, c) <==> TiesCommute(EntityLine(show), IdLe, c.entities)
  {
    hide GroupBy, TripleLe, Commute, ParticipationFor, RoleOrder, Takes, Arrangement, Order.StrLe;
    RelationsDiffer(ids, relationFacts, c.relations);
    EventsDiffer(ids, hash, eventFacts, c.events);
    forall a, b | a in c.relations && b in c.relations && EndsLe(a, b) && EndsLe(b, a)
      ensures Commute(RelationLine(show)(a), RelationLine(show)(b))
    {
      TriplesTie(EndsOf(a), EndsOf(b));
      SameCommutes(RelationLine(show)(a));
    }
    forall a, b | a in c.events && b in c.events && EventLe(a, b) && EventLe(b, a)
      ensures Commute(EventLine()(a), EventLine()(b))
    {
      Order.StrLeAntisymmetric(a.id, b.id);
      SameCommutes(EventLine()(a));
    }
    forall a, b | a in c.participations && b in c.participations && RoleLe(a, b) && RoleLe(b, a)
      ensures Commute(ParticipationLine(show)(a), ParticipationLine(show)(b))
    {
      TriplesTie(RoleOf(a), RoleOf(b));
      SameCommutes(ParticipationLine(show)(a));
    }
  }

  lemma RelationsDiffer(ids: map<Ref, string>, facts: seq<Fact<RawRelation>>, rs: seq<Relation>)
    requires RelationsOf(ids, facts, rs)
    ensures forall a, b :: a in rs && b in rs && EndsOf(a) == EndsOf(b) ==> a == b
  {
    hide GroupBy, Arrangement;
    GroupsAreTidy(EdgeKeys(ids), facts);
  }

  lemma EventsDiffer(ids: map<Ref, string>, hash: EventHash, facts: seq<Fact<RawEvent>>, vs: seq<Event>)
    requires EventsOf(ids, hash, facts, vs)
    ensures forall a, b :: a in vs && b in vs && a.id == b.id ==> a == b
  {
    hide GroupBy, Arrangement, IsCanonical;
    GroupsAreTidy(EventKeys(ids, hash), facts);
  }

  predicate OneLine(s: string) { '\n' !in s }

  /** For a constructed graph whose entity lines hold no newline, the fingerprint
      ignores the order of its input exactly when entities with one id have one line. */
  lemma ConstructedFingerprintIff(digest: string -> string, show: nat -> string, ids: map<Ref, string>, hash: EventHash,
                                  relationFacts: seq<Fact<RawRelation>>, eventFacts: seq<Fact<RawEvent>>, c: Content)
    requires Injective(digest) && forall e :: e in c.entities ==> OneLine(EntityLine(show)(e))
    requires RelationsOf(ids, relationFacts, c.relations) && EventsOf(ids, hash, eventFacts, c.events)
    requires ParticipationsOf(ids, hash, eventFacts, c.participations)
    ensures (forall d :: Reordered(c, d) ==> GraphFingerprint(digest, show, d) == GraphFingerprint(digest, show, c))
      <==> forall e, f ::
             e in c.entities && f in c.entities && e.id == f.id ==> EntityLine(show)(e) == EntityLine(show)(f)
  {
    hide RelationsOf, EventsOf, ParticipationsOf, EntityLine, GraphFingerprint, Reordered, Injective, Order.StrLe,
         Commute, AllTiesCommute;
    FingerprintOrderFreeIff(digest, show, c);
    BuiltRecordsDiffer(ids, hash, relationFacts, eventFacts, show, c);
    forall e, f | e in c.entities && f in c.entities
      ensures IdLe(e, f) && IdLe(f, e) <==> e.id == f.id
      ensures Commute(EntityLine(show)(e), EntityLine(show)(f)) <==> EntityLine(show)(e) == EntityLine(show)(f)
    {
      Order.StrLeTotal(e.id, e.id);
      if IdLe(e, f) && IdLe(f, e) { Order.StrLeAntisymmetric(e.id, f.id); }
      CommuteIff(EntityLine(show)(e), EntityLine(show)(f));
    }
  }

  const HERE := Entity("i", "guard", "PERSON", [Span("c", 0, 5)])
  const THERE := Entity("i", "guard", "PERSON", [Span("d", 0, 5)])

  /** Two namesakes of one id, mentioned in different chunks: the fingerprint depends on which comes first. */
  lemma NamesakeOrderShows(digest: string -> string, show: nat -> string)
    requires Injective(digest)
    ensures GraphFingerprint(digest, show, Content([HERE, THERE], [], [], []))
      != GraphFingerprint(digest, show, Content([THERE, HERE], [], [], []))
  {
    hide GraphFingerprint, Sorted, Injective, Order.TotalPreorder;
    var u, v := EntityLine(show)(HERE), EntityLine(show)(THERE);
    HereAndThere(show);
    SameLengthCommute(u, v);
    AllTotal();
    Order.StrLeTotal("i", "i");
    OrderShows(EntityLine(show), IdLe, HERE, THERE, []);
    assert [HERE, THERE] + [] == [HERE, THERE] && [THERE, HERE] + [] == [THERE, HERE];
    FingerprintsAgreeIff(digest, show, Content([HERE, THERE], [], [], []), Content([THERE, HERE], [], [], []));
  }

  lemma HereAndThere(show: nat -> string)
    ensures |EntityLine(show)(HERE)| == |EntityLine(show)(THERE)| && EntityLine(show)(HERE) != EntityLine(show)(THERE)
  {
    var front := "E:" + "i" + ":" + "guard" + ":" + "PERSON" + ":";
    assert EntityLine(show)(HERE) == front + SpanText(show, Span("c", 0, 5));
    assert EntityLine(show)(THERE) == front + SpanText(show, Span("d", 0, 5));
    assert SpanText(show, Span("c", 0, 5))[0] == 'c' && SpanText(show, Span("d", 0, 5))[0] == 'd';
    assert EntityLine(show)(HERE)[|front|] == 'c' && EntityLine(show)(THERE)[|front|] == 'd';
  }

  lemma SameLengthCommute(u: string, v: string)
    requires |u| == |v|
    ensures Commute(u, v) <==> u == v
  {
    if Commute(u, v) { assert u == (Ended(u) + Ended(v))[..|u|] && v == (Ended(v) + Ended(u))[..|v|]; }
  }
}
