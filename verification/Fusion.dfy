/** Fusing claim-linked evidence per claim: reciprocal rank fusion and the
    round-robin (best rank) baseline. */
module Fusion {
  import opened Schemas
  import opened Grouping
  import Order

  datatype Retrieved = Retrieved(id: string, chunk: string, text: string, source: string, rank: nat,
                                 claim: Option<string>, query: Option<string>)

  datatype Fused = Fused(claim: string, chunk: string, text: string, score: real, sources: seq<string>,
                         queries: seq<string>)

  type Pair = (string, string)

  function PairKeys(): Retrieved -> Option<Pair> {
    (r: Retrieved) => if r.claim.Some? then Some((r.claim.value, r.chunk)) else None
  }

  function ClaimKeys(): Fused -> Option<string> { (f: Fused) => Some(f.claim) }

  function OfClaim(claim: string): Fused -> bool { Has(ClaimKeys(), claim) }

  /** Stamped by the retrieval orchestrator. */
  predicate Stamped(evidence: seq<Retrieved>) {
    forall r :: r in evidence ==> r.claim.Some? && r.query.Some?
  }

  function SourcesOf(records: seq<Retrieved>): seq<string> {
    seq(|records|, i requires 0 <= i < |records| => records[i].source)
  }

  function QueriesOf(records: seq<Retrieved>): seq<string> {
    seq(|records|, i requires 0 <= i < |records| => if records[i].query.Some? then records[i].query.value else "")
  }

  // ----- the two scores of a group -----

  type Score = seq<Retrieved> -> real

  function Reciprocal(k: nat): Retrieved -> real {
    (r: Retrieved) => if k + r.rank == 0 then 0.0 else 1.0 / (k + r.rank) as real
  }

  function RrfScore(k: nat): Score { records => SumOf(Reciprocal(k), records) }

  function BestRank(records: seq<Retrieved>): nat {
    if records == [] then 0
    else if |records| == 1 then records[0].rank
    else
      var front, last := BestRank(records[..|records| - 1]), records[|records| - 1].rank;
      if last < front then last else front
  }

  function BestRankScore(): Score { records => 1.0 / (1 + BestRank(records)) as real }

  // ----- the specification -----

  function Combine(score: Score, pair: Pair, records: seq<Retrieved>): Fused
    requires records != []
  {
    Fused(pair.0, pair.1, records[0].text, score(records), Order.Distinct(SourcesOf(records)),
          Order.Distinct(QueriesOf(records)))
  }

  function CombineAll(score: Score, of: map<Pair, seq<Retrieved>>, pairs: seq<Pair>): (fs: seq<Fused>)
    requires forall p :: p in pairs ==> p in of && of[p] != []
    ensures |fs| == |pairs| && forall x :: 0 <= x < |pairs| ==> fs[x] == Combine(score, pairs[x], of[pairs[x]])
  {
    seq(|pairs|, x requires 0 <= x < |pairs| => assert pairs[x] in pairs; Combine(score, pairs[x], of[pairs[x]]))
  }

  /** One record per pair, before the cap. */
  function AllFused(score: Score, evidence: seq<Retrieved>): seq<Fused> {
    var g := GroupBy(PairKeys(), evidence);
    assert Tidy(g) by { GroupsAreTidy(PairKeys(), evidence); }
    CombineAll(score, g.of, g.keys)
  }

  /** Best score first, ties by chunk id. */
  predicate RankLe(a: Fused, b: Fused) {
    a.score > b.score || (a.score == b.score && Order.StrLe(a.chunk, b.chunk))
  }

  function Cap<T>(topK: nat, xs: seq<T>): seq<T> { if |xs| < topK then xs else xs[..topK] }

  function Top(topK: nat, fs: seq<Fused>): seq<Fused> { Cap(topK, Order.SortBy(fs, RankLe)) }

  function TopOfClaims(topK: nat, of: map<string, seq<Fused>>, claims: seq<string>): seq<Fused>
    requires forall c :: c in claims ==> c in of
  {
    if claims == [] then []
    else TopOfClaims(topK, of, claims[..|claims| - 1]) + Top(topK, of[claims[|claims| - 1]])
  }

  function FusionOf(score: Score, topK: nat, evidence: seq<Retrieved>): seq<Fused> {
    var byClaim := GroupBy(ClaimKeys(), AllFused(score, evidence));
    assert Tidy(byClaim) by { GroupsAreTidy(ClaimKeys(), AllFused(score, evidence)); }
    TopOfClaims(topK, byClaim.of, byClaim.keys)
  }

  // ----- fuse_evidence and round_robin_fuse -----

  method GroupByPair(evidence: seq<Retrieved>) returns (groups: Groups<Pair, Retrieved>)
    requires Stamped(evidence)
    ensures groups == GroupBy(PairKeys(), evidence)
  {
    groups := Groups([], map[]);
    for i := 0 to |evidence|
      invariant groups == GroupBy(PairKeys(), evidence[..i])
    {
      GroupNext(PairKeys(), evidence, i);
      assert evidence[i] in evidence;
      groups := Put(groups, (evidence[i].claim.value, evidence[i].chunk), evidence[i]);
    }
    assert evidence[..|evidence|] == evidence;
  }

  /** Sources and queries of a group, each once, in order of first appearance. */
  method Contributors(records: seq<Retrieved>) returns (sources: seq<string>, queries: seq<string>)
    requires Stamped(records)
    ensures sources == Order.Distinct(SourcesOf(records)) && queries == Order.Distinct(QueriesOf(records))
  {
    sources, queries := [], [];
    for i := 0 to |records|
      invariant sources == Order.Distinct(SourcesOf(records)[..i]) && queries == Order.Distinct(QueriesOf(records)[..i])
    {
      assert records[i] in records;
      assert SourcesOf(records)[..i + 1][..i] == SourcesOf(records)[..i];
      assert QueriesOf(records)[..i + 1][..i] == QueriesOf(records)[..i];
      if records[i].source !in sources { sources := sources + [records[i].source]; }
      if records[i].query.value !in queries { queries := queries + [records[i].query.value]; }
    }
    assert SourcesOf(records)[..|records|] == SourcesOf(records)
      && QueriesOf(records)[..|records|] == QueriesOf(records);
  }

  lemma GroupIsStamped(evidence: seq<Retrieved>, p: Pair)
    requires Stamped(evidence) && p in GroupBy(PairKeys(), evidence).of
    ensures Stamped(GroupBy(PairKeys(), evidence).of[p]) && GroupBy(PairKeys(), evidence).of[p] != []
  {
    hide GroupBy;
    GroupsAreTidy(PairKeys(), evidence);
    forall r | r in GroupBy(PairKeys(), evidence).of[p] ensures r.claim.Some? && r.query.Some? {
      GroupMembers(PairKeys(), evidence, p, r);
    }
  }

  method CombineGroups(score: Score, evidence: seq<Retrieved>) returns (byClaim: Groups<string, Fused>)
    requires Stamped(evidence)
    ensures byClaim == GroupBy(ClaimKeys(), AllFused(score, evidence))
  {
    hide GroupBy, Order.Distinct, Stamped;
    var groups := GroupByPair(evidence);
    GroupsAreTidy(PairKeys(), evidence);
    ghost var all := AllFused(score, evidence);
    GroupNone(ClaimKeys());
    byClaim := Groups([], map[]);
    for x := 0 to |groups.keys|
      invariant byClaim == GroupBy(ClaimKeys(), all[..x])
    {
      var p := groups.keys[x];
      assert p in groups.of;
      GroupIsStamped(evidence, p);
      var records := groups.of[p];
      var sources, queries := Contributors(records);
      var fused := Fused(p.0, p.1, records[0].text, score(records), sources, queries);
      assert fused == all[x];
      GroupNext(ClaimKeys(), all, x);
      byClaim := Put(byClaim, p.0, fused);
    }
    assert all[..|all|] == all;
  }

  method RankByClaim(topK: nat, byClaim: Groups<string, Fused>) returns (result: seq<Fused>)
    requires Tidy(byClaim)
    ensures result == TopOfClaims(topK, byClaim.of, byClaim.keys)
  {
    hide Order.SortBy;
    result := [];
    for x := 0 to |byClaim.keys|
      invariant result == TopOfClaims(topK, byClaim.of, byClaim.keys[..x])
    {
      var claim := byClaim.keys[x];
      assert claim in byClaim.of;
      assert byClaim.keys[..x + 1][..x] == byClaim.keys[..x];
      var ranked := Order.SortBy(byClaim.of[claim], RankLe);
      result := result + Cap(topK, ranked);
    }
    assert byClaim.keys[..|byClaim.keys|] == byClaim.keys;
  }

  /** Unstamped evidence raises; otherwise every claim gets its best records. */
  method FuseEvidence(evidence: seq<Retrieved>, k: nat, topK: nat) returns (r: Result<seq<Fused>>)
    ensures r == if Stamped(evidence) then Ok(FusionOf(RrfScore(k), topK, evidence)) else Raised
  {
    hide GroupBy, TopOfClaims, AllFused;
    if !Stamped(evidence) { return Raised; }
    var byClaim := CombineGroups(RrfScore(k), evidence);
    GroupsAreTidy(ClaimKeys(), AllFused(RrfScore(k), evidence));
    var result := RankByClaim(topK, byClaim);
    r := Ok(result);
  }

  method RoundRobinFuse(evidence: seq<Retrieved>, topK: nat) returns (r: Result<seq<Fused>>)
    ensures r == if Stamped(evidence) then Ok(FusionOf(BestRankScore(), topK, evidence)) else Raised
  {
    hide GroupBy, TopOfClaims, AllFused;
    if !Stamped(evidence) { return Raised; }
    var byClaim := CombineGroups(BestRankScore(), evidence);
    GroupsAreTidy(ClaimKeys(), AllFused(BestRankScore(), evidence));
    var result := RankByClaim(topK, byClaim);
    r := Ok(result);
  }

  // ----- what fusion keeps -----

  /** The records of one pair. */
  function RecordsOf(evidence: seq<Retrieved>, p: Pair): seq<Retrieved> { Filter(Has(PairKeys(), p), evidence) }

  /** Exactly one record per (claim, chunk) pair of the evidence, scored by its own contributions. */
  lemma OneRecordPerPair(score: Score, evidence: seq<Retrieved>, p: Pair)
    ensures var all := AllFused(score, evidence);
      && (RecordsOf(evidence, p) != [] <==> exists x :: 0 <= x < |all| && (all[x].claim, all[x].chunk) == p)
      && (forall x ::
        0 <= x < |all| && (all[x].claim, all[x].chunk) == p ==> all[x].score == score(RecordsOf(evidence, p)))
      && (forall x, y :: 0 <= x < y < |all| ==> (all[x].claim, all[x].chunk) != (all[y].claim, all[y].chunk))
  {
    hide GroupBy, Order.Distinct;
    var g, all := GroupBy(PairKeys(), evidence), AllFused(score, evidence);
    GroupsAreTidy(PairKeys(), evidence);
    GroupIsFilter(PairKeys(), evidence, p);
    if p in g.of {
      var x :| 0 <= x < |g.keys| && g.keys[x] == p;
      assert (all[x].claim, all[x].chunk) == p;
    }
    forall x | 0 <= x < |all| ensures g.keys[x] in g.of && (all[x].claim, all[x].chunk) == g.keys[x] {
      assert g.keys[x] in g.keys;
    }
  }

  function ScoreOf(): Fused -> real { (f: Fused) => f.score }

  lemma {:induction false} ScoresAreTotals(k: nat, of: map<Pair, seq<Retrieved>>, pairs: seq<Pair>)
    requires forall p :: p in pairs ==> p in of && of[p] != []
    ensures SumOf(ScoreOf(), CombineAll(RrfScore(k), of, pairs)) == TotalOf(Reciprocal(k), of, pairs)
  {
    hide Order.Distinct;
    if pairs != [] {
      var front := pairs[..|pairs| - 1];
      ScoresAreTotals(k, of, front);
      var all := CombineAll(RrfScore(k), of, pairs);
      assert all[..|all| - 1] == CombineAll(RrfScore(k), of, front);
    }
  }

  /** Before the cap the scores add up to `1/(k + rank)` over all evidence. */
  lemma ScoreIsConserved(k: nat, evidence: seq<Retrieved>)
    requires Stamped(evidence)
    ensures SumOf(ScoreOf(), AllFused(RrfScore(k), evidence)) == SumOf(Reciprocal(k), evidence)
  {
    hide GroupBy, SumOf, TotalOf;
    var g := GroupBy(PairKeys(), evidence);
    NothingLost(Reciprocal(k), PairKeys(), evidence);
    ScoresAreTotals(k, g.of, g.keys);
    NoneUnkeyed(k, evidence);
  }

  lemma NoneUnkeyed(k: nat, evidence: seq<Retrieved>)
    requires Stamped(evidence)
    ensures SumOf(Reciprocal(k), Filter(Unkeyed(PairKeys()), evidence)) == 0.0
  {
    var none := Filter(Unkeyed(PairKeys()), evidence);
    if none != [] { FilterMembers(Unkeyed(PairKeys()), evidence, none[0]); }
  }

  // ----- what one claim is given -----

  /** The fused records of a claim in the final result. */
  function Section(score: Score, topK: nat, evidence: seq<Retrieved>, claim: string): seq<Fused> {
    Filter(OfClaim(claim), FusionOf(score, topK, evidence))
  }

  lemma {:induction false} FilterConcat<T>(keep: T -> bool, a: seq<T>, b: seq<T>)
    ensures Filter(keep, a + b) == Filter(keep, a) + Filter(keep, b)
  {
    if b == [] {
      assert a + b == a;
    } else {
      FilterConcat(keep, a, b[..|b| - 1]);
      assert (a + b)[..|a + b| - 1] == a + b[..|b| - 1];
    }
  }

  lemma {:induction false} FilterAll<T(!new)>(keep: T -> bool, xs: seq<T>, all: bool)
    requires forall x :: x in xs ==> keep(x) == all
    ensures Filter(keep, xs) == if all then xs else []
  {
    if xs != [] {
      var front := xs[..|xs| - 1];
      assert forall x :: x in front ==> x in xs;
      FilterAll(keep, front, all);
    }
  }

  lemma RankLeIsTotal()
    ensures Order.TotalPreorder(RankLe)
  {
    forall x, y ensures RankLe(x, y) || RankLe(y, x) { Order.StrLeTotal(x.chunk, y.chunk); }
    forall x, y, z | RankLe(x, y) && RankLe(y, z) ensures RankLe(x, z) {
      if x.score == y.score == z.score { Order.StrLeTransitive(x.chunk, y.chunk, z.chunk); }
    }
  }

  lemma TopMembers(topK: nat, fs: seq<Fused>, f: Fused)
    ensures f in Top(topK, fs) ==> f in fs
  {
    hide Order.SortBy;
    RankLeIsTotal();
    Order.SortByCorrect(fs, RankLe);
  }

  lemma {:induction false} SectionOfClaims(topK: nat, of: map<string, seq<Fused>>, claims: seq<string>, claim: string)
    requires Order.NoDuplicates(claims)
    requires forall c :: c in claims ==> c in of && forall f :: f in of[c] ==> f.claim == c
    ensures Filter(OfClaim(claim), TopOfClaims(topK, of, claims)) == if claim in claims then Top(topK, of[claim])
      else []
  {
    hide Top, Filter;
    if claims == [] {
      assert Filter(OfClaim(claim), []) == [] by { FilterNone(claim); }
    } else {
      var front, last := claims[..|claims| - 1], claims[|claims| - 1];
      SectionOfClaims(topK, of, front, claim);
      FilterConcat(OfClaim(claim), TopOfClaims(topK, of, front), Top(topK, of[last]));
      forall f | f in Top(topK, of[last])
        ensures OfClaim(claim)(f) == (last == claim)
      {
        TopMembers(topK, of[last], f);
      }
      FilterAll(OfClaim(claim), Top(topK, of[last]), last == claim);
      assert claims == front + [last];
    }
  }

  lemma FilterNone(claim: string)
    ensures Filter(OfClaim(claim), []) == []
  {
  }

  /** A claim's part of the result is the top of its own records, and of nothing else. */
  lemma SectionIsTop(score: Score, topK: nat, evidence: seq<Retrieved>, claim: string)
    ensures Section(score, topK, evidence, claim) == Top(topK, Filter(OfClaim(claim), AllFused(score, evidence)))
  {
    hide GroupBy, Filter, Top, AllFused, TopOfClaims;
    var all := AllFused(score, evidence);
    var g := GroupBy(ClaimKeys(), all);
    GroupsAreTidy(ClaimKeys(), all);
    forall c, f | c in g.of && f in g.of[c] ensures f.claim == c { GroupMembers(ClaimKeys(), all, c, f); }
    SectionOfClaims(topK, g.of, g.keys, claim);
    GroupIsFilter(ClaimKeys(), all, claim);
    if claim !in g.of { TopOfNone(topK); }
  }

  lemma TopOfNone(topK: nat)
    ensures Top(topK, []) == []
  {
  }

  /** Fusion invents nothing: every fused record is of a retrieved (claim, chunk) pair. */
  lemma FusedIsRetrieved(score: Score, topK: nat, evidence: seq<Retrieved>, f: Fused)
    requires f in FusionOf(score, topK, evidence)
    ensures f in AllFused(score, evidence)
    ensures exists r :: r in evidence && r.claim == Some(f.claim) && r.chunk == f.chunk
  {
    hide AllFused, FusionOf, Top, Filter;
    var all, pair := AllFused(score, evidence), (f.claim, f.chunk);
    FilterMembers(OfClaim(f.claim), FusionOf(score, topK, evidence), f);
    SectionIsTop(score, topK, evidence, f.claim);
    TopMembers(topK, Filter(OfClaim(f.claim), all), f);
    FilterMembers(OfClaim(f.claim), all, f);
    var x :| 0 <= x < |all| && all[x] == f;
    OneRecordPerPair(score, evidence, pair);
    FilterMembers(Has(PairKeys(), pair), evidence, RecordsOf(evidence, pair)[0]);
  }

  lemma CapHas<T>(topK: nat, xs: seq<T>, i: nat)
    requires i < |xs|
    ensures i < topK ==> xs[i] in Cap(topK, xs)
  {
    if i < topK { assert Cap(topK, xs)[i] == xs[i]; }
  }

  /** No dropped record beats a kept one, and nothing is dropped below the cap. */
  lemma DroppedAreWorse(score: Score, topK: nat, evidence: seq<Retrieved>, claim: string, dropped: Fused, kept: Fused)
    requires dropped in AllFused(score, evidence) && dropped.claim == claim
      && dropped !in Section(score, topK, evidence, claim)
    requires kept in Section(score, topK, evidence, claim)
    ensures RankLe(kept, dropped) && |Section(score, topK, evidence, claim)| == topK
  {
    hide Filter, AllFused, Section, Order.SortBy;
    SectionIsTop(score, topK, evidence, claim);
    var own := Filter(OfClaim(claim), AllFused(score, evidence));
    FilterMembers(OfClaim(claim), AllFused(score, evidence), dropped);
    RankLeIsTotal();
    Order.SortByCorrect(own, RankLe);
    var sorted := Order.SortBy(own, RankLe);
    assert dropped in sorted;
    var i :| 0 <= i < |sorted| && sorted[i] == dropped;
    var j :| 0 <= j < |Cap(topK, sorted)| && Cap(topK, sorted)[j] == kept;
    CapHas(topK, sorted, i);
  }

  // ----- the order of a claim's chunks -----

  function Chunks(fs: seq<Fused>): seq<string> { seq(|fs|, i requires 0 <= i < |fs| => fs[i].chunk) }

  /** The order in which a claim's chunks are ranked. */
  ghost function ChunkLe(score: Score, evidence: seq<Retrieved>, claim: string): (string, string) -> bool {
    (c, d) =>
      var s, t := score(RecordsOf(evidence, (claim, c))), score(RecordsOf(evidence, (claim, d)));
      s > t || (s == t && Order.StrLe(c, d))
  }

  lemma ChunkLeIsTotal(score: Score, evidence: seq<Retrieved>, claim: string)
    ensures Order.TotalPreorder(ChunkLe(score, evidence, claim))
    ensures forall xs: seq<string> :: Order.AntisymmetricOn(ChunkLe(score, evidence, claim), xs)
  {
    hide RecordsOf;
    var le := ChunkLe(score, evidence, claim);
    forall x, y ensures le(x, y) || le(y, x) { Order.StrLeTotal(x, y); }
    forall x, y, z | le(x, y) && le(y, z) ensures le(x, z) {
      if Order.StrLe(x, y) && Order.StrLe(y, z) { Order.StrLeTransitive(x, y, z); }
    }
    forall x, y | le(x, y) && le(y, x) ensures x == y { Order.StrLeAntisymmetric(x, y); }
  }

  /** All of a claim's records, ranked. */
  function RankedOf(score: Score, evidence: seq<Retrieved>, claim: string): seq<Fused> {
    Order.SortBy(Filter(OfClaim(claim), AllFused(score, evidence)), RankLe)
  }

  lemma RankedMember(score: Score, evidence: seq<Retrieved>, claim: string, f: Fused)
    ensures f in RankedOf(score, evidence, claim) <==> f in AllFused(score, evidence) && f.claim == claim
    ensures f in RankedOf(score, evidence, claim) ==> f.score == score(RecordsOf(evidence, (claim, f.chunk)))
  {
    hide AllFused, Filter, Order.SortBy, RecordsOf;
    var all := AllFused(score, evidence);
    RankLeIsTotal();
    Order.SortByCorrect(Filter(OfClaim(claim), all), RankLe);
    FilterMembers(OfClaim(claim), all, f);
    OneRecordPerPair(score, evidence, (claim, f.chunk));
    if f in all && f.claim == claim { var x :| 0 <= x < |all| && all[x] == f; }
  }

  /** The ranked chunks are the chunks with evidence, each once, in order of score. */
  lemma RankedChunks(score: Score, evidence: seq<Retrieved>, claim: string)
    ensures var cs := Chunks(RankedOf(score, evidence, claim));
      && Order.NoDuplicates(cs) && Order.Sorted(cs, ChunkLe(score, evidence, claim))
      && forall c :: c in cs <==> RecordsOf(evidence, (claim, c)) != []
  {
    hide AllFused, RankedOf, RecordsOf;
    var ranked := RankedOf(score, evidence, claim);
    var cs := Chunks(ranked);
    RankedIsSorted(score, evidence, claim);
    forall i, j | 0 <= i < j < |cs| ensures cs[i] != cs[j] && ChunkLe(score, evidence, claim)(cs[i], cs[j]) {
      RankedMember(score, evidence, claim, ranked[i]);
      RankedMember(score, evidence, claim, ranked[j]);
      assert RankLe(ranked[i], ranked[j]);
    }
    forall c
      ensures c in cs <==> RecordsOf(evidence, (claim, c)) != []
    {
      RankedChunkMember(score, evidence, claim, c);
    }
  }

  lemma RankedIsSorted(score: Score, evidence: seq<Retrieved>, claim: string)
    ensures Order.Sorted(RankedOf(score, evidence, claim), RankLe)
    ensures var ranked := RankedOf(score, evidence, claim);
      forall i, j :: 0 <= i < j < |ranked| ==> ranked[i].chunk != ranked[j].chunk
  {
    hide AllFused, Filter, Order.SortBy;
    var all, ranked := AllFused(score, evidence), RankedOf(score, evidence, claim);
    var own := Filter(OfClaim(claim), all);
    RankLeIsTotal();
    Order.SortByCorrect(own, RankLe);
    OwnChunksDiffer(score, evidence, claim);
    Order.SortedNoDuplicates(own, RankLe);
    forall i, j | 0 <= i < j < |ranked| ensures ranked[i].chunk != ranked[j].chunk {
      RankedMember(score, evidence, claim, ranked[i]);
      RankedMember(score, evidence, claim, ranked[j]);
      var x :| 0 <= x < |all| && all[x] == ranked[i];
      var y :| 0 <= y < |all| && all[y] == ranked[j];
      OneRecordPerPair(score, evidence, (claim, ranked[i].chunk));
    }
  }

  lemma {:induction false} FilterKeepsDistinct<T>(keep: T -> bool, xs: seq<T>)
    requires Order.NoDuplicates(xs)
    ensures Order.NoDuplicates(Filter(keep, xs))
  {
    if xs != [] {
      var front, last := xs[..|xs| - 1], xs[|xs| - 1];
      FilterKeepsDistinct(keep, front);
      FilterMembers(keep, front, last);
      assert last !in front;
    }
  }

  lemma OwnChunksDiffer(score: Score, evidence: seq<Retrieved>, claim: string)
    ensures Order.NoDuplicates(Filter(OfClaim(claim), AllFused(score, evidence)))
  {
    hide AllFused, Filter;
    OneRecordPerPair(score, evidence, (claim, ""));
    FilterKeepsDistinct(OfClaim(claim), AllFused(score, evidence));
  }

  lemma RankedChunkMember(score: Score, evidence: seq<Retrieved>, claim: string, c: string)
    ensures c in Chunks(RankedOf(score, evidence, claim)) <==> RecordsOf(evidence, (claim, c)) != []
  {
    hide AllFused, RankedOf, RecordsOf;
    var all, ranked := AllFused(score, evidence), RankedOf(score, evidence, claim);
    OneRecordPerPair(score, evidence, (claim, c));
    if c in Chunks(ranked) {
      var i :| 0 <= i < |ranked| && Chunks(ranked)[i] == c;
      RankedMember(score, evidence, claim, ranked[i]);
      var x :| 0 <= x < |all| && all[x] == ranked[i];
      assert (all[x].claim, all[x].chunk) == (claim, c);
    }
    if x :| 0 <= x < |all| && (all[x].claim, all[x].chunk) == (claim, c) {
      RankedMember(score, evidence, claim, all[x]);
      var i :| 0 <= i < |ranked| && ranked[i] == all[x];
      assert Chunks(ranked)[i] == c;
    }
  }

  /** Two fusions that order a claim's chunks alike keep the same chunks in the same order. */
  lemma SameOrderSameChunks(f: Score, g: Score, topK: nat, a: seq<Retrieved>, b: seq<Retrieved>, claim: string)
    requires forall c :: RecordsOf(a, (claim, c)) != [] <==> RecordsOf(b, (claim, c)) != []
    requires forall c, d :: RecordsOf(a, (claim, c)) != [] && RecordsOf(a, (claim, d)) != [] ==>
               ChunkLe(f, a, claim)(c, d) == ChunkLe(g, b, claim)(c, d)
    ensures Chunks(Section(f, topK, a, claim)) == Chunks(Section(g, topK, b, claim))
  {
    hide AllFused, RankedOf, RecordsOf, Section, ChunkLe;
    var cs, ds := Chunks(RankedOf(f, a, claim)), Chunks(RankedOf(g, b, claim));
    RankedChunks(f, a, claim);
    RankedChunks(g, b, claim);
    ChunkLeIsTotal(f, a, claim);
    Order.SameMembersSameBag(cs, ds);
    forall i, j | 0 <= i < j < |ds| ensures ChunkLe(f, a, claim)(ds[i], ds[j]) {
      assert ds[i] in ds && ds[j] in ds;
    }
    assert Order.AntisymmetricOn(ChunkLe(f, a, claim), cs);
    Order.SortedIsUnique(cs, ds, ChunkLe(f, a, claim));
    SectionChunks(f, topK, a, claim);
    SectionChunks(g, topK, b, claim);
  }

  lemma SectionChunks(score: Score, topK: nat, evidence: seq<Retrieved>, claim: string)
    ensures Chunks(Section(score, topK, evidence, claim)) == Cap(topK, Chunks(RankedOf(score, evidence, claim)))
  {
    hide AllFused, Section, Order.SortBy;
    SectionIsTop(score, topK, evidence, claim);
  }

  // ----- input order -----

  lemma {:induction false} SumOfFiltered<V(!new)>(f: V -> real, h: V -> real, keep: V -> bool, xs: seq<V>)
    requires forall x :: h(x) == if keep(x) then f(x) else 0.0
    ensures SumOf(f, Filter(keep, xs)) == SumOf(h, xs)
  {
    if xs != [] {
      var front, last := xs[..|xs| - 1], xs[|xs| - 1];
      SumOfFiltered(f, h, keep, front);
      if keep(last) {
        SumAppend(f, Filter(keep, front), last);
      } else {
        assert Filter(keep, xs) == Filter(keep, front);
      }
    }
  }

  lemma PairScoreIgnoresOrder(k: nat, a: seq<Retrieved>, b: seq<Retrieved>, p: Pair)
    requires multiset(a) == multiset(b)
    ensures RrfScore(k)(RecordsOf(a, p)) == RrfScore(k)(RecordsOf(b, p))
    ensures RecordsOf(a, p) != [] <==> RecordsOf(b, p) != []
  {
    hide SumOf, Filter;
    var keep := Has(PairKeys(), p);
    var h := (r: Retrieved) => if keep(r) then Reciprocal(k)(r) else 0.0;
    SumOfFiltered(Reciprocal(k), h, keep, a);
    SumOfFiltered(Reciprocal(k), h, keep, b);
    SumOfPermuted(h, a, b);
    CountOfPermuted(keep, a, b);
  }

  /** Reordering the evidence changes neither a pair's score nor which chunks a claim keeps, nor their order. */
  lemma InputOrderIrrelevant(k: nat, topK: nat, a: seq<Retrieved>, b: seq<Retrieved>, claim: string)
    requires multiset(a) == multiset(b)
    ensures Chunks(Section(RrfScore(k), topK, a, claim)) == Chunks(Section(RrfScore(k), topK, b, claim))
    ensures forall f, g ::
      f in AllFused(RrfScore(k), a) && g in AllFused(RrfScore(k), b) && (f.claim, f.chunk) == (g.claim, g.chunk) ==>
        f.score == g.score
  {
    hide RecordsOf, Section, AllFused, RrfScore;
    forall p
      ensures RrfScore(k)(RecordsOf(a, p)) == RrfScore(k)(RecordsOf(b, p))
        && (RecordsOf(a, p) != [] <==> RecordsOf(b, p) != [])
    {
      PairScoreIgnoresOrder(k, a, b, p);
    }
    SameOrderSameChunks(RrfScore(k), RrfScore(k), topK, a, b, claim);
    forall f, g | f in AllFused(RrfScore(k), a) && g in AllFused(RrfScore(k), b)
      && (f.claim, f.chunk) == (g.claim, g.chunk)
      ensures f.score == g.score
    {
      OneRecordPerPair(RrfScore(k), a, (f.claim, f.chunk));
      OneRecordPerPair(RrfScore(k), b, (f.claim, f.chunk));
    }
  }

  // ----- RRF and round robin -----

  ghost predicate OneContribution(evidence: seq<Retrieved>) {
    forall p :: |RecordsOf(evidence, p)| <= 1
  }

  lemma SmallerRankScoresHigher(k: nat, i: nat, j: nat)
    requires k > 0
    ensures 1.0 / (k + i) as real > 1.0 / (k + j) as real <==> i < j
    ensures 1.0 / (k + i) as real == 1.0 / (k + j) as real <==> i == j
  {
    var x, y := (k + i) as real, (k + j) as real;
    assert (1.0 / x) * x == 1.0 && (1.0 / y) * y == 1.0;
    if i < j { Inverse(x, y); }
    if j < i { Inverse(y, x); }
  }

  lemma Inverse(x: real, y: real)
    requires 0.0 < x < y
    ensures 1.0 / x > 1.0 / y
  {
    var u, v := 1.0 / x, 1.0 / y;
    assert u * x == 1.0 && v * y == 1.0;
    assert (u - v) * (x * y) == (u * x) * y - (v * y) * x == y - x;
    PositiveFactor(u - v, x * y);
  }

  lemma PositiveFactor(d: real, p: real)
    requires p > 0.0 && d * p > 0.0
    ensures d > 0.0
  {
  }

  lemma SingleScores(k: nat, r: Retrieved)
    requires k > 0
    ensures RrfScore(k)([r]) == 1.0 / (k + r.rank) as real
    ensures BestRankScore()([r]) == 1.0 / (1 + r.rank) as real
  {
    assert [] + [r] == [r];
    SumAppend(Reciprocal(k), [], r);
    assert BestRank([r]) == r.rank;
  }

  /** When each pair has one contribution, RRF and the round-robin baseline keep
      the same chunks in the same order for every claim. */
  lemma BaselineAgrees(k: nat, topK: nat, evidence: seq<Retrieved>, claim: string)
    requires k > 0 && OneContribution(evidence)
    ensures Chunks(Section(RrfScore(k), topK, evidence, claim))
      == Chunks(Section(BestRankScore(), topK, evidence, claim))
  {
    hide RecordsOf, Section, RrfScore, BestRankScore;
    forall c, d | RecordsOf(evidence, (claim, c)) != [] && RecordsOf(evidence, (claim, d)) != []
      ensures ChunkLe(RrfScore(k), evidence, claim)(c, d) == ChunkLe(BestRankScore(), evidence, claim)(c, d)
    {
      var r, s := RecordsOf(evidence, (claim, c)), RecordsOf(evidence, (claim, d));
      assert r == [r[0]] && s == [s[0]];
      SingleScores(k, r[0]);
      SingleScores(k, s[0]);
      SmallerRankScoresHigher(k, r[0].rank, s[0].rank);
      SmallerRankScoresHigher(1, r[0].rank, s[0].rank);
    }
    SameOrderSameChunks(RrfScore(k), BestRankScore(), topK, evidence, evidence, claim);
  }
}
