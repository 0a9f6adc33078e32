/** What a run asks its models and backends for, and what of it reaches the ledger. */
module RunFacts {
  import opened Schemas
  import opened Fusion
  import opened Rules
  import opened Ledgers
  import opened Stages
  import opened Pipeline
  import opened RunProperties
  import opened Verdicts
  import opened FusionFacts
  import Order

  // ----- questions and queries -----

  /** Questions are exactly what the generator returns for each claim, in the claim's name. */
  lemma QuestionsIff(s: Services, claims: seq<Claim>, q: Question)
    requires AllQuestions(s, claims).Ok?
    ensures q in AllQuestions(s, claims).value <==>
      s.useQuestions && exists c ::
        c in claims && q.claim == c.id && s.generate(c).Ok? && (q.id, q.text) in s.generate(c).value
  {
    hide Collect;
    if s.useQuestions {
      CollectMeans(QuestionsFor(s), claims, q);
      forall c | c in claims
        ensures q in QuestionsFor(s)(c).value <==> q.claim == c.id && (q.id, q.text) in s.generate(c).value
      {
        QuestionsOfClaim(s, c, q);
      }
    }
  }

  lemma QuestionsOfClaim(s: Services, c: Claim, q: Question)
    requires QuestionsFor(s)(c).Ok?
    ensures s.generate(c).Ok?
    ensures q in QuestionsFor(s)(c).value <==> q.claim == c.id && (q.id, q.text) in s.generate(c).value
  {
    var ts, qs := s.generate(c).value, QuestionsFor(s)(c).value;
    if q.claim == c.id && (q.id, q.text) in ts {
      var i :| 0 <= i < |ts| && ts[i] == (q.id, q.text);
      assert qs[i] == q;
    }
  }

  /** Every query asks the text of a claim, for that claim, or the text of a
      question, for its claim; its id is the hash of just that. */
  lemma QueryAsks(s: Services, claims: seq<Claim>, questions: seq<Question>, q: Query)
    requires q in AllQueries(s, claims, questions)
    ensures (exists c :: c in claims && AsksClaim(s, q, c)) || exists p :: p in questions && AsksQuestion(s, q, p)
  {
    hide AllQueries;
    QueriesServe(s, claims, questions);
    if c :| c in claims && q == ClaimQuery(s, c) {
      assert AsksClaim(s, q, c);
    } else {
      var p :| p in questions && q == QuestionQuery(s, p);
      assert AsksQuestion(s, q, p);
    }
  }

  predicate AsksClaim(s: Services, q: Query, c: Claim) {
    q.text == c.text && q.claim == c.id && q.question == None && q.id == s.queryId(c.id, "CLAIM", "", c.text)
  }

  predicate AsksQuestion(s: Services, q: Query, p: Question) {
    q.text == p.text && q.claim == p.claim && q.question == Some(p.id)
    && q.id == s.queryId(p.claim, "QUESTION", p.id, p.text)
  }

  // ----- retrieval -----

  /** The record is `raw`, stamped with the query, its claim and a new id. */
  predicate IsStamped(s: Services, q: Query, raw: Retrieved, r: Retrieved) {
    && r.claim == Some(q.claim) && r.query == Some(q.id) && r.id == s.evidenceId(q.id, raw.source, raw.chunk, raw.rank)
    && r.chunk == raw.chunk && r.text == raw.text && r.source == raw.source && r.rank == raw.rank
  }

  /** Retrieved is exactly what some retriever returns for the text of some query, stamped. */
  lemma RetrievedIff(s: Services, retrievers: seq<Retriever>, queries: seq<Query>, r: Retrieved)
    requires AllRetrieved(s, retrievers, queries).Ok?
    ensures r in AllRetrieved(s, retrievers, queries).value <==>
      exists q, retriever, raw :: q in queries && retriever in retrievers && retriever(q.text, s.topK).Ok?
        && raw in retriever(q.text, s.topK).value && IsStamped(s, q, raw, r)
  {
    hide Collect, RetrieveOne, IsStamped;
    CollectMeans(RetrieveEach(s, retrievers), queries, r);
    forall q | q in queries
      ensures RetrieveEach(s, retrievers)(q).Ok?
      ensures r in RetrieveEach(s, retrievers)(q).value <==> exists retriever, raw ::
        retriever in retrievers && retriever(q.text, s.topK).Ok? && raw in retriever(q.text, s.topK).value
        && IsStamped(s, q, raw, r)
    {
      RetrievedFor(s, retrievers, q, r);
    }
  }

  lemma RetrievedFor(s: Services, retrievers: seq<Retriever>, q: Query, r: Retrieved)
    requires RetrieveEach(s, retrievers)(q).Ok?
    ensures r in RetrieveEach(s, retrievers)(q).value <==> exists retriever, raw ::
      retriever in retrievers && retriever(q.text, s.topK).Ok? && raw in retriever(q.text, s.topK).value
      && IsStamped(s, q, raw, r)
  {
    hide Collect, RetrieveOne, IsStamped;
    assert RetrieveEach(s, retrievers)(q) == Collect(RetrieveOne(s, q), retrievers);
    CollectMeans(RetrieveOne(s, q), retrievers, r);
    forall retriever: Retriever | retriever in retrievers
      ensures retriever(q.text, s.topK).Ok?
      ensures r in RetrieveOne(s, q)(retriever).value <==>
        exists raw :: raw in retriever(q.text, s.topK).value && IsStamped(s, q, raw, r)
    {
      RetrievedFrom(s, q, retriever, r);
    }
  }

  lemma RetrievedFrom(s: Services, q: Query, retriever: Retriever, r: Retrieved)
    requires RetrieveOne(s, q)(retriever).Ok?
    ensures retriever(q.text, s.topK).Ok?
    ensures r in RetrieveOne(s, q)(retriever).value <==>
      exists raw :: raw in retriever(q.text, s.topK).value && IsStamped(s, q, raw, r)
  {
    var rs, out := retriever(q.text, s.topK).value, RetrieveOne(s, q)(retriever).value;
    if r in out {
      var i :| 0 <= i < |out| && out[i] == r;
      assert rs[i] in rs && IsStamped(s, q, rs[i], r);
    }
    if raw :| raw in rs && IsStamped(s, q, raw, r) {
      var i :| 0 <= i < |rs| && rs[i] == raw;
      assert out[i] == r;
    }
  }

  /** Asked are the semantic retriever and, when it is switched on, the lexical one. */
  lemma RetrieversAre(s: Services, retriever: Retriever)
    requires Ingests(s)
    ensures retriever in Retrievers(s) <==>
      retriever == s.semantic.value || (s.useBm25 && retriever == s.lexical.value)
  {
  }

  // ----- fusion -----

  /** In a judged run every fused record is scored as configured, by the best rank
      or by reciprocal ranks, from the retrieved records of its pair, and no claim
      has more than the configured number. */
  lemma FusedAsConfigured(s: Services, l: Ledger, f: Fused)
    requires Judged(s, l) && f in l.fused
    ensures var own := Filter(r => OfPair(r, f.claim, f.chunk), l.retrieved);
      f.score == if s.roundRobin then BestRankScore()(own) else RrfScore(s.k)(own)
    ensures |Filter(Fusion.OfClaim(f.claim), l.fused)| <= s.topKFused
  {
    hide Classification, Judgement, AllRetrieved, AllQueries, AllQuestions, AllVerified, FusionOf, AllFused, Filter;
    var score := if s.roundRobin then BestRankScore() else RrfScore(s.k);
    assert Stamped(l.retrieved) && l.fused == FusionOf(score, s.topKFused, l.retrieved);
    FusedIsOwn(score, s.topKFused, l.retrieved, f);
    FusedFields(score, l.retrieved, f);
    SectionIsBest(score, s.topKFused, l.retrieved, f.claim);
  }

  lemma FusedIsOwn(score: Score, topK: nat, evidence: seq<Retrieved>, f: Fused)
    requires f in FusionOf(score, topK, evidence)
    ensures f in AllFused(score, evidence)
  {
    hide AllFused, FusionOf, Filter, Order.SortBy;
    var own := Filter(Fusion.OfClaim(f.claim), AllFused(score, evidence));
    FilterMembers(Fusion.OfClaim(f.claim), FusionOf(score, topK, evidence), f);
    SectionIsTop(score, topK, evidence, f.claim);
    RankLeIsTotal();
    Order.SortByCorrect(own, RankLe);
    FilterMembers(Fusion.OfClaim(f.claim), AllFused(score, evidence), f);
  }

  // ----- verification and verdict -----

  /** The result is the model's answer with the record's text as premise and the claim's as hypothesis. */
  predicate IsAnswer(s: Services, c: Claim, f: Fused, n: NliResult) {
    f.claim == c.id && s.predict(f.text, c.text) == Ok((n.kind, n.score)) && n.claim == c.id && n.chunk == f.chunk
  }

  /** Results are exactly the model's answers on the fused records of each claim. */
  lemma VerifiedIff(s: Services, claims: seq<Claim>, fused: seq<Fused>, n: NliResult)
    requires AllVerified(s, claims, fused).Ok?
    ensures n in AllVerified(s, claims, fused).value <==>
      exists c, f :: c in claims && f in fused && IsAnswer(s, c, f, n)
  {
    hide AllVerified;
    if n in AllVerified(s, claims, fused).value {
      VerifiedIsPredicted(s, claims, fused, n);
      var c, f :|
        c in claims && f in fused && f.claim == c.id && s.predict(f.text, c.text) == Ok((n.kind, n.score))
                && n.claim == c.id && n.chunk == f.chunk;
      assert IsAnswer(s, c, f, n);
    }
    if c, f :| c in claims && f in fused && IsAnswer(s, c, f, n) { EveryFusedIsVerified(s, claims, fused, c, f); }
  }

  /** The model gives some fused record of the claim this label, with a score of at least `least`. */
  ghost predicate Labels(s: Services, claims: seq<Claim>, fused: seq<Fused>, id: string, kind: Label, least: real) {
    exists c, f, score ::
      c in claims && c.id == id && f in fused && f.claim == id && Predicts(s, c, f, kind, score) && score >= least
  }

  predicate Predicts(s: Services, c: Claim, f: Fused, kind: Label, score: real) {
    s.predict(f.text, c.text) == Ok((kind, score))
  }

  lemma LabelledIff(s: Services, claims: seq<Claim>, fused: seq<Fused>, id: string, kind: Label, least: real)
    requires AllVerified(s, claims, fused).Ok?
    ensures (exists n ::
               n in AllVerified(s, claims, fused).value && n.claim == id && n.kind == kind && n.score >= least)
            <==> Labels(s, claims, fused, id, kind, least)
  {
    hide AllVerified;
    var nli := AllVerified(s, claims, fused).value;
    if n :| n in nli && n.claim == id && n.kind == kind && n.score >= least {
      VerifiedIff(s, claims, fused, n);
      var c, f :| c in claims && f in fused && IsAnswer(s, c, f, n);
      assert Predicts(s, c, f, kind, n.score);
    }
    if Labels(s, claims, fused, id, kind, least) {
      var c, f, score :|
        c in claims && c.id == id && f in fused && f.claim == id && Predicts(s, c, f, kind, score) && score >= least;
      var n := NliResult(id, f.chunk, kind, score);
      assert IsAnswer(s, c, f, n);
      VerifiedIff(s, claims, fused, n);
    }
  }

  /** The claims of a judged run that are contradicted or entailed, in terms of the model. */
  lemma JudgedOfModel(s: Services, l: Ledger, id: string)
    requires Judged(s, l)
    ensures IsContradicted(s.rules, l.nli, id) <==>
      Labels(s, l.claims, l.fused, id, Contradiction, s.rules.contradiction)
    ensures IsEntailed(s.rules, l.nli, id) <==> Labels(s, l.claims, l.fused, id, Entailment, s.rules.entailment)
  {
    hide AllVerified, Classification, Judgement, Labels, Fuses, AllRetrieved, AllQueries, AllQuestions;
    LabelledIff(s, l.claims, l.fused, id, Contradiction, s.rules.contradiction);
    LabelledIff(s, l.claims, l.fused, id, Entailment, s.rules.entailment);
  }
}
