/** The services between the ledger calls: question generation, query building,
    retrieval stamping, fusion choice and verification. */
module Stages {
  import opened Schemas
  import opened Grouping
  import opened Fusion
  import opened Rules
  import opened Ledgers
  import Order

  type Retriever = (string, nat) -> Result<seq<Retrieved>>

  /** The injected models, hashes and configuration of one run. */
  datatype Services = Services(
    semantic: Result<Retriever>, lexical: Result<Retriever>,
    sourceClaimId: string -> string, decompose: string -> Result<seq<Claim>>,
    generate: Claim -> Result<seq<(string, string)>>,
    queryId: (string, string, string, string) -> string, evidenceId: (string, string, string, nat) -> string,
    predict: (string, string) -> Result<(Label, real)>,
    rules: RuleConfig, k: nat, topKFused: nat, topK: nat,
    useBm25: bool, useQuestions: bool, roundRobin: bool)

  // ----- a raising step over a list -----

  /** `out.extend(f(x))` for every `x`, where `f` may raise. */
  function Collect<A, B>(f: A -> Result<seq<B>>, xs: seq<A>): Result<seq<B>> {
    if xs == [] then Ok([])
    else
      var front, last := Collect(f, xs[..|xs| - 1]), f(xs[|xs| - 1]);
      if front.Raised? || last.Raised? then Raised else Ok(front.value + last.value)
  }

  lemma CollectNext<A, B>(f: A -> Result<seq<B>>, xs: seq<A>, i: nat)
    requires i < |xs|
    ensures Collect(f, xs[..i + 1]) ==
      if Collect(f, xs[..i]).Raised? || f(xs[i]).Raised? then Raised else Ok(Collect(f, xs[..i]).value + f(xs[i]).value)
  {
    assert xs[..i + 1][..i] == xs[..i];
  }

  /** It raises iff some step does, and otherwise returns what the steps return. */
  lemma {:induction false} CollectMeans<A(!new), B>(f: A -> Result<seq<B>>, xs: seq<A>, y: B)
    ensures Collect(f, xs).Ok? <==> forall x :: x in xs ==> f(x).Ok?
    ensures Collect(f, xs).Ok? ==> (y in Collect(f, xs).value <==> exists x :: x in xs && f(x).Ok? && y in f(x).value)
  {
    if xs != [] {
      var front, last := xs[..|xs| - 1], xs[|xs| - 1];
      CollectMeans(f, front, y);
      assert xs == front + [last];
    }
  }

  /** Stop at the first step that raises. */
  method CollectAll<A(!new), B>(f: A -> Result<seq<B>>, xs: seq<A>) returns (r: Result<seq<B>>)
    ensures r == Collect(f, xs)
  {
    hide Collect;
    CollectNone(f);
    var out: seq<B> := [];
    for i := 0 to |xs|
      invariant Collect(f, xs[..i]) == Ok(out)
    {
      CollectNext(f, xs, i);
      var more := f(xs[i]);
      if more.Raised? {
        CollectStops(f, xs, i);
        return Raised;
      }
      out := out + more.value;
    }
    assert xs[..|xs|] == xs;
    return Ok(out);
  }

  lemma CollectNone<A, B>(f: A -> Result<seq<B>>)
    ensures Collect(f, []) == Ok([])
  {
  }

  lemma {:induction false} CollectStops<A(!new), B>(f: A -> Result<seq<B>>, xs: seq<A>, i: nat)
    requires i < |xs| && f(xs[i]).Raised?
    ensures Collect(f, xs).Raised?
  {
    if i < |xs| - 1 { CollectStops(f, xs[..|xs| - 1], i); }
  }

  // ----- question generation -----

  /** The parser stamps each question with the claim it was generated for. */
  function QuestionsFor(s: Services): Claim -> Result<seq<Question>> {
    (c: Claim) =>
      var texts := s.generate(c);
      if texts.Raised? then Raised
      else
        var ts := texts.value;
        Ok(seq(|ts|, i requires 0 <= i < |ts| => Question(ts[i].0, c.id, ts[i].1)))
  }

  function AllQuestions(s: Services, claims: seq<Claim>): Result<seq<Question>> {
    if s.useQuestions then Collect(QuestionsFor(s), claims) else Ok([])
  }

  lemma QuestionServesClaim(s: Services, claims: seq<Claim>, q: Question)
    requires AllQuestions(s, claims).Ok? && q in AllQuestions(s, claims).value
    ensures exists c :: c in claims && c.id == q.claim
  {
    CollectMeans(QuestionsFor(s), claims, q);
    var c :| c in claims && QuestionsFor(s)(c).Ok? && q in QuestionsFor(s)(c).value;
  }

  // ----- build_retrieval_queries -----

  function HasId(qs: seq<Query>, id: string): bool { exists i :: 0 <= i < |qs| && qs[i].id == id }

  /** `continue` on an id already seen. */
  function AddQuery(qs: seq<Query>, q: Query): seq<Query> { if HasId(qs, q.id) then qs else qs + [q] }

  function ClaimQuery(s: Services, c: Claim): Query { Query(s.queryId(c.id, "CLAIM", "", c.text), c.text, c.id, None) }

  function QuestionQuery(s: Services, q: Question): Query {
    Query(s.queryId(q.claim, "QUESTION", q.id, q.text), q.text, q.claim, Some(q.id))
  }

  function ClaimQueries(s: Services, claims: seq<Claim>): seq<Query> {
    if claims == [] then []
    else AddQuery(ClaimQueries(s, claims[..|claims| - 1]), ClaimQuery(s, claims[|claims| - 1]))
  }

  function AllQueries(s: Services, claims: seq<Claim>, questions: seq<Question>): seq<Query> {
    if questions == [] then ClaimQueries(s, claims)
    else AddQuery(AllQueries(s, claims, questions[..|questions| - 1]), QuestionQuery(s, questions[|questions| - 1]))
  }

  ghost predicate SeenAre(qs: seq<Query>, seen: set<string>) { forall id :: id in seen <==> HasId(qs, id) }

  method AddUnseen(qs0: seq<Query>, seen0: set<string>, q: Query) returns (qs: seq<Query>, seen: set<string>)
    requires SeenAre(qs0, seen0)
    ensures qs == AddQuery(qs0, q) && SeenAre(qs, seen)
  {
    qs, seen := qs0, seen0;
    if q.id in seen { return; }
    seen := seen + {q.id};
    qs := qs + [q];
    forall id ensures id in seen <==> HasId(qs, id) {
      if HasId(qs0, id) { var i :| 0 <= i < |qs0| && qs0[i].id == id; assert qs[i].id == id; }
      assert qs[|qs0|] == q;
    }
  }

  method BuildRetrievalQueries(s: Services, claims: seq<Claim>, questions: seq<Question>) returns (qs: seq<Query>)
    ensures qs == AllQueries(s, claims, questions)
  {
    hide SeenAre, AddQuery;
    qs := [];
    var seen: set<string> := {};
    NothingSeen();
    for i := 0 to |claims|
      invariant qs == ClaimQueries(s, claims[..i]) && SeenAre(qs, seen)
    {
      assert claims[..i + 1][..i] == claims[..i];
      qs, seen := AddUnseen(qs, seen, ClaimQuery(s, claims[i]));
    }
    assert claims[..|claims|] == claims;
    for i := 0 to |questions|
      invariant qs == AllQueries(s, claims, questions[..i]) && SeenAre(qs, seen)
    {
      assert questions[..i + 1][..i] == questions[..i];
      qs, seen := AddUnseen(qs, seen, QuestionQuery(s, questions[i]));
    }
    assert questions[..|questions|] == questions;
  }

  lemma NothingSeen()
    ensures SeenAre([], {})
  {
  }

  ghost predicate DistinctIds(qs: seq<Query>) { forall i, j :: 0 <= i < j < |qs| ==> qs[i].id != qs[j].id }

  lemma AddKeepsDistinct(qs: seq<Query>, q: Query)
    requires DistinctIds(qs)
    ensures DistinctIds(AddQuery(qs, q)) && HasId(AddQuery(qs, q), q.id)
    ensures forall id :: HasId(qs, id) ==> HasId(AddQuery(qs, q), id)
    ensures forall x :: x in AddQuery(qs, q) ==> x in qs || x == q
  {
    var more := AddQuery(qs, q);
    forall id | HasId(qs, id)
      ensures HasId(more, id)
    {
      var i :| 0 <= i < |qs| && qs[i].id == id;
      assert more[i].id == id;
    }
    if !HasId(qs, q.id) { assert more[|qs|].id == q.id; }
  }

  lemma {:induction false} ClaimQueriesServe(s: Services, claims: seq<Claim>)
    ensures DistinctIds(ClaimQueries(s, claims))
    ensures forall q :: q in ClaimQueries(s, claims) ==> exists c :: c in claims && q == ClaimQuery(s, c)
    ensures forall c :: c in claims ==> HasId(ClaimQueries(s, claims), ClaimQuery(s, c).id)
  {
    hide AddQuery, HasId;
    if claims != [] {
      var front, last := claims[..|claims| - 1], claims[|claims| - 1];
      ClaimQueriesServe(s, front);
      AddKeepsDistinct(ClaimQueries(s, front), ClaimQuery(s, last));
      assert claims == front + [last];
    }
  }

  /** Query ids are distinct, each query serves a claim or a question, and the
      query of every claim and question is there. */
  lemma {:induction false} QueriesServe(s: Services, claims: seq<Claim>, questions: seq<Question>)
    ensures DistinctIds(AllQueries(s, claims, questions))
    ensures forall q :: q in AllQueries(s, claims, questions) ==>
      (exists c :: c in claims && q == ClaimQuery(s, c)) || (exists p :: p in questions && q == QuestionQuery(s, p))
    ensures forall c :: c in claims ==> HasId(AllQueries(s, claims, questions), ClaimQuery(s, c).id)
    ensures forall p :: p in questions ==> HasId(AllQueries(s, claims, questions), QuestionQuery(s, p).id)
  {
    hide AddQuery, HasId;
    if questions == [] {
      ClaimQueriesServe(s, claims);
    } else {
      var front, last := questions[..|questions| - 1], questions[|questions| - 1];
      QueriesServe(s, claims, front);
      AddKeepsDistinct(AllQueries(s, claims, front), QuestionQuery(s, last));
      assert questions == front + [last];
    }
  }

  // ----- retrieve_for_queries -----

  function Stamp(s: Services, q: Query, r: Retrieved): Retrieved {
    r.(id := s.evidenceId(q.id, r.source, r.chunk, r.rank), claim := Some(q.claim), query := Some(q.id))
  }

  function StampAll(s: Services, q: Query, rs: seq<Retrieved>): seq<Retrieved> {
    seq(|rs|, i requires 0 <= i < |rs| => Stamp(s, q, rs[i]))
  }

  function RetrieveOne(s: Services, q: Query): Retriever -> Result<seq<Retrieved>> {
    (retriever: Retriever) =>
      var rs := retriever(q.text, s.topK);
      if rs.Raised? then Raised else Ok(StampAll(s, q, rs.value))
  }

  function RetrieveEach(s: Services, retrievers: seq<Retriever>): Query -> Result<seq<Retrieved>> {
    (q: Query) => Collect(RetrieveOne(s, q), retrievers)
  }

  function AllRetrieved(s: Services, retrievers: seq<Retriever>, queries: seq<Query>): Result<seq<Retrieved>> {
    Collect(RetrieveEach(s, retrievers), queries)
  }

  method StampResults(s: Services, q: Query, results: seq<Retrieved>) returns (stamped: seq<Retrieved>)
    ensures stamped == StampAll(s, q, results)
  {
    stamped := [];
    for i := 0 to |results|
      invariant |stamped| == i && forall j :: 0 <= j < i ==> stamped[j] == Stamp(s, q, results[j])
    {
      stamped := stamped + [Stamp(s, q, results[i])];
    }
  }

  method RetrieveQuery(s: Services, retrievers: seq<Retriever>, q: Query) returns (r: Result<seq<Retrieved>>)
    ensures r == RetrieveEach(s, retrievers)(q)
  {
    hide Collect, StampAll;
    var f := RetrieveOne(s, q);
    CollectNone(f);
    var out: seq<Retrieved> := [];
    for i := 0 to |retrievers|
      invariant Collect(f, retrievers[..i]) == Ok(out)
    {
      CollectNext(f, retrievers, i);
      var retriever := retrievers[i];
      var results := retriever(q.text, s.topK);
      if results.Raised? {
        CollectStops(f, retrievers, i);
        return Raised;
      }
      var stamped := StampResults(s, q, results.value);
      out := out + stamped;
    }
    assert retrievers[..|retrievers|] == retrievers;
    return Ok(out);
  }

  method RetrieveForQueries(s: Services, retrievers: seq<Retriever>, queries: seq<Query>)
    returns (r: Result<seq<Retrieved>>)
    ensures r == AllRetrieved(s, retrievers, queries)
  {
    hide Collect;
    var f := RetrieveEach(s, retrievers);
    CollectNone(f);
    var out: seq<Retrieved> := [];
    for i := 0 to |queries|
      invariant Collect(f, queries[..i]) == Ok(out)
    {
      CollectNext(f, queries, i);
      var more := RetrieveQuery(s, retrievers, queries[i]);
      if more.Raised? {
        CollectStops(f, queries, i);
        return Raised;
      }
      out := out + more.value;
    }
    assert queries[..|queries|] == queries;
    return Ok(out);
  }

  /** `r` was retrieved for a query of the list and carries that query and its claim. */
  ghost predicate ServedBy(queries: seq<Query>, r: Retrieved) {
    exists q :: q in queries && r.claim == Some(q.claim) && r.query == Some(q.id)
  }

  lemma RetrievedIsServed(s: Services, retrievers: seq<Retriever>, queries: seq<Query>, r: Retrieved)
    requires AllRetrieved(s, retrievers, queries).Ok? && r in AllRetrieved(s, retrievers, queries).value
    ensures ServedBy(queries, r)
  {
    hide Collect;
    CollectMeans(RetrieveEach(s, retrievers), queries, r);
    var q :| q in queries && RetrieveEach(s, retrievers)(q).Ok? && r in RetrieveEach(s, retrievers)(q).value;
    assert RetrieveEach(s, retrievers)(q) == Collect(RetrieveOne(s, q), retrievers);
    RetrievedForQuery(s, retrievers, q, r);
  }

  lemma {:induction false} RetrievedForQuery(s: Services, retrievers: seq<Retriever>, q: Query, r: Retrieved)
    requires Collect(RetrieveOne(s, q), retrievers).Ok? && r in Collect(RetrieveOne(s, q), retrievers).value
    ensures r.claim == Some(q.claim) && r.query == Some(q.id)
  {
    var front, last := retrievers[..|retrievers| - 1], retrievers[|retrievers| - 1];
    if r in RetrieveOne(s, q)(last).value {
      StampedFor(s, q, last(q.text, s.topK).value, r);
    } else {
      RetrievedForQuery(s, front, q, r);
    }
  }

  lemma StampedFor(s: Services, q: Query, rs: seq<Retrieved>, r: Retrieved)
    requires r in StampAll(s, q, rs)
    ensures r.claim == Some(q.claim) && r.query == Some(q.id)
  {
    var i :| 0 <= i < |rs| && StampAll(s, q, rs)[i] == r;
  }

  // ----- verification -----

  function VerifyRecord(s: Services, c: Claim): Fused -> Result<seq<NliResult>> {
    (f: Fused) =>
      var p := s.predict(f.text, c.text);
      if p.Raised? then Raised else Ok([NliResult(c.id, f.chunk, p.value.0, p.value.1)])
  }

  function VerifyClaim(s: Services, fused: seq<Fused>): Claim -> Result<seq<NliResult>> {
    (c: Claim) => Collect(VerifyRecord(s, c), Filter(Fusion.OfClaim(c.id), fused))
  }

  function AllVerified(s: Services, claims: seq<Claim>, fused: seq<Fused>): Result<seq<NliResult>> {
    Collect(VerifyClaim(s, fused), claims)
  }

  method GroupFused(fused: seq<Fused>) returns (byClaim: Groups<string, Fused>)
    ensures byClaim == GroupBy(ClaimKeys(), fused)
  {
    byClaim := Groups([], map[]);
    for i := 0 to |fused|
      invariant byClaim == GroupBy(ClaimKeys(), fused[..i])
    {
      GroupNext(ClaimKeys(), fused, i);
      byClaim := Put(byClaim, fused[i].claim, fused[i]);
    }
    assert fused[..|fused|] == fused;
  }

  /** `_verify`: group the fused records by claim, then verify each claim against its own. */
  method Verify(s: Services, claims: seq<Claim>, fused: seq<Fused>) returns (r: Result<seq<NliResult>>)
    ensures r == AllVerified(s, claims, fused)
  {
    hide Collect, GroupBy, Filter;
    var byClaim := GroupFused(fused);
    var f := VerifyClaim(s, fused);
    CollectNone(f);
    var out: seq<NliResult> := [];
    for i := 0 to |claims|
      invariant Collect(f, claims[..i]) == Ok(out)
    {
      CollectNext(f, claims, i);
      var c := claims[i];
      GroupIsFilter(ClaimKeys(), fused, c.id);
      var own := if c.id in byClaim.of then byClaim.of[c.id] else [];
      var more := CollectAll(VerifyRecord(s, c), own);
      if more.Raised? {
        CollectStops(f, claims, i);
        return Raised;
      }
      out := out + more.value;
    }
    assert claims[..|claims|] == claims;
    return Ok(out);
  }

  /** Verification cites only fused pairs, and only of listed claims. */
  lemma VerifiedIsFused(s: Services, claims: seq<Claim>, fused: seq<Fused>, n: NliResult)
    requires AllVerified(s, claims, fused).Ok? && n in AllVerified(s, claims, fused).value
    ensures exists f :: f in fused && f.claim == n.claim && f.chunk == n.chunk
    ensures exists c :: c in claims && c.id == n.claim
  {
    hide AllVerified;
    VerifiedIsPredicted(s, claims, fused, n);
  }

  /** ... and it leaves none out: every fused record of a listed claim gets the model's answer. */
  lemma EveryFusedIsVerified(s: Services, claims: seq<Claim>, fused: seq<Fused>, c: Claim, f: Fused)
    requires AllVerified(s, claims, fused).Ok? && c in claims && f in fused && f.claim == c.id
    ensures s.predict(f.text, c.text).Ok?
    ensures var p := s.predict(f.text, c.text).value;
      NliResult(c.id, f.chunk, p.0, p.1) in AllVerified(s, claims, fused).value
  {
    hide Collect, Filter;
    VerificationFailsIff(s, claims, fused);
    var p := s.predict(f.text, c.text).value;
    var n := NliResult(c.id, f.chunk, p.0, p.1);
    CollectMeans(VerifyClaim(s, fused), claims, n);
    CollectMeans(VerifyRecord(s, c), Filter(Fusion.OfClaim(c.id), fused), n);
    FilterMembers(Fusion.OfClaim(c.id), fused, f);
    assert n in VerifyRecord(s, c)(f).value;
  }

  lemma VerifiedIsPredicted(s: Services, claims: seq<Claim>, fused: seq<Fused>, n: NliResult)
    requires AllVerified(s, claims, fused).Ok? && n in AllVerified(s, claims, fused).value
    ensures exists c, f ::
      c in claims && f in fused && f.claim == c.id && s.predict(f.text, c.text) == Ok((n.kind, n.score))
              && n.claim == c.id && n.chunk == f.chunk
  {
    hide Collect, Filter;
    CollectMeans(VerifyClaim(s, fused), claims, n);
    var c :| c in claims && VerifyClaim(s, fused)(c).Ok? && n in VerifyClaim(s, fused)(c).value;
    var own := Filter(Fusion.OfClaim(c.id), fused);
    CollectMeans(VerifyRecord(s, c), own, n);
    var f :| f in own && VerifyRecord(s, c)(f).Ok? && n in VerifyRecord(s, c)(f).value;
    FilterMembers(Fusion.OfClaim(c.id), fused, f);
  }

  /** It raises exactly when the model raises on some fused record of a listed claim. */
  lemma VerificationFailsIff(s: Services, claims: seq<Claim>, fused: seq<Fused>)
    ensures AllVerified(s, claims, fused).Ok? <==>
      forall c, f :: c in claims && f in fused && f.claim == c.id ==> s.predict(f.text, c.text).Ok?
  {
    hide Collect, Filter;
    var any := NliResult("", "", Neutral, 0.0);
    CollectMeans(VerifyClaim(s, fused), claims, any);
    forall c
      ensures VerifyClaim(s, fused)(c).Ok? <==>
        forall f :: f in fused && f.claim == c.id ==> s.predict(f.text, c.text).Ok?
    {
      var own := Filter(Fusion.OfClaim(c.id), fused);
      CollectMeans(VerifyRecord(s, c), own, any);
      forall f ensures f in own <==> f in fused && f.claim == c.id { FilterMembers(Fusion.OfClaim(c.id), fused, f); }
      forall f ensures VerifyRecord(s, c)(f).Ok? <==> s.predict(f.text, c.text).Ok? { }
    }
  }
}
