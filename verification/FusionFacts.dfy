/** What a fused record holds and where it stands, said of the retrieved records. */
module FusionFacts {
  import opened Schemas
  import opened Grouping
  import opened Fusion
  import Order

  predicate OfPair(r: Retrieved, claim: string, chunk: string) { r.claim == Some(claim) && r.chunk == chunk }

  // ----- scores -----

  /** Reciprocal rank fusion adds `1 / (k + rank)` for every record. */
  lemma OneMoreContribution(k: nat, records: seq<Retrieved>, r: Retrieved) returns (x: real)
    requires k + r.rank > 0
    ensures RrfScore(k)([]) == 0.0
    ensures RrfScore(k)(records + [r]) == RrfScore(k)(records) + x && x * (k + r.rank) as real == 1.0
  {
    SumAppend(Reciprocal(k), records, r);
    x := Reciprocal(k)(r);
  }

  lemma {:induction false} BestRankIs(records: seq<Retrieved>)
    requires records != []
    ensures exists r :: r in records && r.rank == BestRank(records)
    ensures forall r :: r in records ==> BestRank(records) <= r.rank
  {
    var front, last := records[..|records| - 1], records[|records| - 1];
    assert records == front + [last];
    if |records| > 1 {
      BestRankIs(front);
      var r :| r in front && r.rank == BestRank(front);
      assert r in records && last in records;
    } else {
      assert records[0] in records;
    }
  }

  /** The baseline scores a pair by its best rank: `1 / (1 + rank)` of the record ranked first. */
  lemma BaselineScoreIs(records: seq<Retrieved>) returns (best: Retrieved)
    requires records != []
    ensures best in records && forall r :: r in records ==> best.rank <= r.rank
    ensures BestRankScore()(records) * (1 + best.rank) as real == 1.0
  {
    hide BestRank;
    BestRankIs(records);
    best :| best in records && best.rank == BestRank(records);
  }

  // ----- fields -----

  predicate IsFirstOf(evidence: seq<Retrieved>, i: nat, claim: string, chunk: string)
    requires i < |evidence|
  {
    OfPair(evidence[i], claim, chunk) && forall j :: 0 <= j < i ==> !OfPair(evidence[j], claim, chunk)
  }

  /** Every fused record has the text of the first record of its pair, its score
      from all of them, and names each of their sources and queries once. */
  lemma FusedFields(score: Score, evidence: seq<Retrieved>, f: Fused)
    requires Stamped(evidence) && f in AllFused(score, evidence)
    ensures exists i ::
      0 <= i < |evidence| && IsFirstOf(evidence, i, f.claim, f.chunk) && f.text == evidence[i].text
    ensures f.score == score(Filter(r => OfPair(r, f.claim, f.chunk), evidence))
    ensures Order.NoDuplicates(f.sources) && Order.NoDuplicates(f.queries)
    ensures forall s :: s in f.sources <==>
      exists r :: r in evidence && OfPair(r, f.claim, f.chunk) && r.source == s
    ensures forall q :: q in f.queries <==>
      exists r :: r in evidence && OfPair(r, f.claim, f.chunk) && r.query == Some(q)
  {
    hide GroupBy, Filter, Order.Distinct, Combine;
    var g, all := GroupBy(PairKeys(), evidence), AllFused(score, evidence);
    GroupsAreTidy(PairKeys(), evidence);
    var x :| 0 <= x < |all| && all[x] == f;
    var p := g.keys[x];
    assert p in g.keys;
    GroupIsFilter(PairKeys(), evidence, p);
    var own := g.of[p];
    assert f == Combine(score, p, own) && own == Filter(Has(PairKeys(), p), evidence);
    CombinedFields(score, p, own);
    PairIs(evidence, p, f.claim, f.chunk);
    FirstKept(r => OfPair(r, f.claim, f.chunk), evidence);
    forall r ensures r in own <==> r in evidence && OfPair(r, f.claim, f.chunk) {
      FilterMembers(Has(PairKeys(), p), evidence, r);
    }
    ContributorsAre(own, f);
    forall q ensures q in f.queries <==> exists r :: r in own && r.query == Some(q) { QueriesAre(evidence, own, f, q); }
  }

  lemma CombinedFields(score: Score, p: Pair, own: seq<Retrieved>)
    requires own != []
    ensures var f := Combine(score, p, own);
      && (f.claim, f.chunk) == p && f.text == own[0].text && f.score == score(own)
      && f.sources == Order.Distinct(SourcesOf(own)) && f.queries == Order.Distinct(QueriesOf(own))
  {
  }

  lemma PairIs(evidence: seq<Retrieved>, p: Pair, claim: string, chunk: string)
    requires p == (claim, chunk)
    ensures Filter(Has(PairKeys(), p), evidence) == Filter(r => OfPair(r, claim, chunk), evidence)
  {
    SameFilters(Has(PairKeys(), p), r => OfPair(r, claim, chunk), evidence);
  }

  /** The first element kept is the first that satisfies the condition. */
  lemma {:induction false} FirstKept<T(!new)>(keep: T -> bool, xs: seq<T>)
    ensures Filter(keep, xs) != [] ==> exists i ::
      0 <= i < |xs| && keep(xs[i]) && xs[i] == Filter(keep, xs)[0] && forall j :: 0 <= j < i ==> !keep(xs[j])
  {
    if xs != [] {
      var front, last := xs[..|xs| - 1], xs[|xs| - 1];
      FirstKept(keep, front);
      if Filter(keep, front) != [] {
        var i :| 0 <= i < |front| && keep(front[i]) && front[i] == Filter(keep, front)[0]
          && forall j :: 0 <= j < i ==> !keep(front[j]);
        assert xs[i] == front[i] && forall j :: 0 <= j < i ==> xs[j] == front[j];
      } else if keep(last) {
        forall j | 0 <= j < |xs| - 1 ensures !keep(xs[j]) { FilterMembers(keep, front, xs[j]); }
        assert xs[|xs| - 1] == last;
      }
    }
  }

  lemma ContributorsAre(own: seq<Retrieved>, f: Fused)
    requires f.sources == Order.Distinct(SourcesOf(own)) && f.queries == Order.Distinct(QueriesOf(own))
    ensures Order.NoDuplicates(f.sources) && Order.NoDuplicates(f.queries)
    ensures forall s :: s in f.sources <==> exists r :: r in own && r.source == s
  {
    hide Order.Distinct;
    Order.DistinctMembers(SourcesOf(own), "");
    Order.DistinctMembers(QueriesOf(own), "");
    forall s ensures s in f.sources <==> exists r :: r in own && r.source == s {
      Order.DistinctMembers(SourcesOf(own), s);
      if r :| r in own && r.source == s {
        var i :| 0 <= i < |own| && own[i] == r;
        assert SourcesOf(own)[i] == s;
      }
    }
  }

  lemma QueriesAre(evidence: seq<Retrieved>, own: seq<Retrieved>, f: Fused, q: string)
    requires Stamped(evidence) && f.queries == Order.Distinct(QueriesOf(own)) && forall r :: r in own ==> r in evidence
    ensures q in f.queries <==> exists r :: r in own && r.query == Some(q)
  {
    hide Order.Distinct;
    Order.DistinctMembers(QueriesOf(own), q);
    var qs := QueriesOf(own);
    if q in qs {
      var i :| 0 <= i < |qs| && qs[i] == q;
      assert own[i] in own && own[i] in evidence;
    }
    if r :| r in own && r.query == Some(q) {
      var i :| 0 <= i < |own| && own[i] == r;
      assert qs[i] == q;
    }
  }

  // ----- order -----

  /** A higher score, or the same score and the alphabetically earlier chunk. */
  predicate Ahead(a: Fused, b: Fused) {
    a.score > b.score || (a.score == b.score && (a.chunk == b.chunk || Order.Earlier(a.chunk, b.chunk)))
  }

  lemma RankLeIs(a: Fused, b: Fused)
    ensures RankLe(a, b) <==> Ahead(a, b)
  {
    hide Order.StrLe, Order.Earlier;
    Order.StrLeIsEarlier(a.chunk, b.chunk);
  }

  /** The records of a claim come best first, and one that is left out is behind
      all that are kept, of which there are then `topK`. */
  lemma SectionIsBest(score: Score, topK: nat, evidence: seq<Retrieved>, claim: string)
    ensures var section := Section(score, topK, evidence, claim);
      && |section| <= topK
      && (forall x, y :: 0 <= x < y < |section| ==> Ahead(section[x], section[y]))
      && (forall f, x :: f in AllFused(score, evidence) && f.claim == claim && f !in section && 0 <= x < |section| ==>
            Ahead(section[x], f))
      && (forall f :: f in AllFused(score, evidence) && f.claim == claim && f !in section ==> |section| == topK)
  {
    hide Filter, AllFused, Section, Order.SortBy, Ahead;
    var section := Section(score, topK, evidence, claim);
    SectionIsTop(score, topK, evidence, claim);
    var own := Filter(OfClaim(claim), AllFused(score, evidence));
    RankLeIsTotal();
    Order.SortByCorrect(own, RankLe);
    var sorted := Order.SortBy(own, RankLe);
    forall x, y | 0 <= x < y < |section| ensures Ahead(section[x], section[y]) {
      assert section[x] == sorted[x] && section[y] == sorted[y];
      RankLeIs(section[x], section[y]);
    }
    forall f | f in AllFused(score, evidence) && f.claim == claim && f !in section
      ensures |section| == topK && forall x :: 0 <= x < |section| ==> Ahead(section[x], f)
    {
      FilterMembers(OfClaim(claim), AllFused(score, evidence), f);
      assert f in sorted && section != sorted;
      forall x | 0 <= x < |section| ensures Ahead(section[x], f) {
        assert section[x] in section;
        DroppedAreWorse(score, topK, evidence, claim, f, section[x]);
        RankLeIs(section[x], f);
      }
    }
  }

  // ----- claim by claim -----

  /** The claims of the evidence, record by record. */
  function ClaimsOf(evidence: seq<Retrieved>): seq<string>
    requires Stamped(evidence)
  {
    seq(|evidence|, i requires 0 <= i < |evidence| => assert evidence[i] in evidence; evidence[i].claim.value)
  }

  function Sections(score: Score, topK: nat, evidence: seq<Retrieved>, claims: seq<string>): seq<Fused> {
    if claims == [] then []
    else
      Sections(score, topK, evidence, claims[..|claims| - 1])
      + Section(score, topK, evidence, claims[|claims| - 1])
  }

  function Firsts(pairs: seq<Pair>): seq<string> { seq(|pairs|, i requires 0 <= i < |pairs| => pairs[i].0) }

  /** First appearances of claims do not change when repeated pairs are left out. */
  lemma {:induction false} FirstsOfDistinct(pairs: seq<Pair>)
    ensures Order.Distinct(Firsts(Order.Distinct(pairs))) == Order.Distinct(Firsts(pairs))
  {
    if pairs != [] {
      var front, last := pairs[..|pairs| - 1], pairs[|pairs| - 1];
      FirstsOfDistinct(front);
      assert Firsts(pairs) == Firsts(front) + [last.0];
      assert Firsts(pairs)[..|pairs| - 1] == Firsts(front);
      Order.DistinctMembers(front, last);
      if last in Order.Distinct(front) {
        var i :| 0 <= i < |front| && front[i] == last;
        assert Firsts(front)[i] == last.0;
        Order.DistinctMembers(Firsts(front), last.0);
      } else {
        var d := Order.Distinct(front);
        assert Order.Distinct(pairs) == d + [last];
        assert Firsts(d + [last]) == Firsts(d) + [last.0];
        assert (Firsts(d) + [last.0])[..|Firsts(d)|] == Firsts(d);
      }
    }
  }

  lemma {:induction false} PairsOfStamped(evidence: seq<Retrieved>)
    requires Stamped(evidence)
    ensures |KeyList(PairKeys(), evidence)| == |evidence| && Firsts(KeyList(PairKeys(), evidence)) == ClaimsOf(evidence)
  {
    if evidence != [] {
      var n := |evidence| - 1;
      assert evidence[n] in evidence && forall r :: r in evidence[..n] ==> r in evidence;
      PairsOfStamped(evidence[..n]);
      var ks := KeyList(PairKeys(), evidence);
      assert ks == KeyList(PairKeys(), evidence[..n]) + [(evidence[n].claim.value, evidence[n].chunk)];
      forall i | 0 <= i < |evidence| ensures Firsts(ks)[i] == ClaimsOf(evidence)[i] {
        if i < n {
          assert Firsts(ks)[i] == Firsts(KeyList(PairKeys(), evidence[..n]))[i] == ClaimsOf(evidence[..n])[i];
        }
      }
    }
  }

  lemma {:induction false} ClaimsOfFused(fs: seq<Fused>)
    ensures |KeyList(ClaimKeys(), fs)| == |fs|
    ensures forall i :: 0 <= i < |fs| ==> KeyList(ClaimKeys(), fs)[i] == fs[i].claim
  {
    if fs != [] { ClaimsOfFused(fs[..|fs| - 1]); }
  }

  /** The result goes claim by claim, in the order in which the evidence first
      mentions them. */
  lemma ClaimByClaim(score: Score, topK: nat, evidence: seq<Retrieved>)
    requires Stamped(evidence)
    ensures FusionOf(score, topK, evidence) == Sections(score, topK, evidence, Order.Distinct(ClaimsOf(evidence)))
  {
    hide GroupBy, Filter, AllFused, Section, Order.Distinct, Top;
    var all := AllFused(score, evidence);
    var byClaim := GroupBy(ClaimKeys(), all);
    GroupsInOrder(ClaimKeys(), all);
    ClaimsOfFused(all);
    FusedInOrder(score, evidence);
    assert KeyList(ClaimKeys(), all) == Firsts(GroupBy(PairKeys(), evidence).keys);
    GroupsInOrder(PairKeys(), evidence);
    PairsOfStamped(evidence);
    FirstsOfDistinct(KeyList(PairKeys(), evidence));
    GroupsAreTidy(ClaimKeys(), all);
    SectionsAreTops(score, topK, evidence, byClaim.of, byClaim.keys);
  }

  lemma FusedInOrder(score: Score, evidence: seq<Retrieved>)
    ensures |AllFused(score, evidence)| == |GroupBy(PairKeys(), evidence).keys|
    ensures forall x :: 0 <= x < |AllFused(score, evidence)| ==>
      AllFused(score, evidence)[x].claim == GroupBy(PairKeys(), evidence).keys[x].0
  {
    hide GroupBy;
    GroupsAreTidy(PairKeys(), evidence);
  }

  lemma {:induction false} SectionsAreTops(score: Score, topK: nat, evidence: seq<Retrieved>,
                                           of: map<string, seq<Fused>>, claims: seq<string>)
    requires of == GroupBy(ClaimKeys(), AllFused(score, evidence)).of && forall c :: c in claims ==> c in of
    ensures TopOfClaims(topK, of, claims) == Sections(score, topK, evidence, claims)
  {
    hide GroupBy, Filter, AllFused, Section, Top;
    if claims != [] {
      var last := claims[|claims| - 1];
      SectionsAreTops(score, topK, evidence, of, claims[..|claims| - 1]);
      SectionIsTop(score, topK, evidence, last);
      GroupIsFilter(ClaimKeys(), AllFused(score, evidence), last);
    }
  }
}
