/** What every verification run ends with, whatever the models return or raise. */
module RunProperties {
  import opened Schemas
  import opened Grouping
  import opened Fusion
  import opened Rules
  import opened Ledgers
  import opened Stages
  import opened Pipeline

  // ----- the state before each stage -----

  /** Every retrieved record names a recorded query that serves its claim. */
  ghost predicate Traced(l: Ledger) { forall r :: r in l.retrieved ==> ServedBy(l.queries, r) }

  ghost predicate ClaimsComputed(s: Services, original: string, claims: seq<Claim>) {
    s.decompose(original) == Ok(claims)
  }

  ghost predicate QuestionsComputed(s: Services, claims: seq<Claim>, questions: seq<Question>) {
    AllQuestions(s, claims) == Ok(questions)
  }

  ghost predicate RetrievalComputed(s: Services, claims: seq<Claim>, questions: seq<Question>, queries: seq<Query>,
                                    retrieved: seq<Retrieved>)
  {
    && Ingests(s) && queries == AllQueries(s, claims, questions)
    && AllRetrieved(s, Retrievers(s), queries) == Ok(retrieved)
  }

  ghost predicate FusionComputed(s: Services, retrieved: seq<Retrieved>, fused: seq<Fused>) {
    Fuses(s, retrieved) == Ok(fused)
  }

  ghost predicate NliComputed(s: Services, claims: seq<Claim>, fused: seq<Fused>, nli: seq<NliResult>) {
    AllVerified(s, claims, fused) == Ok(nli)
  }

  /** The parts written before a stage are what the services make of the parts before them. */
  ghost predicate Computed(s: Services, st: Stage, l: Ledger) {
    && (Rank(st) <= 5 ==> ClaimsComputed(s, l.originalClaim, l.claims))
    && (Rank(st) <= 4 ==> QuestionsComputed(s, l.claims, l.questions))
    && (Rank(st) <= 3 ==> RetrievalComputed(s, l.claims, l.questions, l.queries, l.retrieved))
    && (Rank(st) <= 2 ==> FusionComputed(s, l.retrieved, l.fused))
    && (Rank(st) <= 1 ==> NliComputed(s, l.claims, l.fused, l.nli))
  }

  /** A ledger as it stands before a stage: later parts are still empty, earlier ones are computed and chained. */
  ghost predicate Ready(s: Services, st: Stage, l: Ledger) {
    && l.verdict.None? && EvidenceChain(l) && Traced(l) && Computed(s, st, l)
    && (Rank(st) >= 6 ==> l.originalClaimId.None? && l.claims == [])
    && (Rank(st) >= 5 ==> l.questions == [])
    && (Rank(st) >= 4 ==> l.queries == [] && l.retrieved == [])
    && (Rank(st) >= 3 ==> l.fused == [])
    && (Rank(st) >= 2 ==> l.nli == [])
    && l.contradictions == [] && l.supporting == [] && l.unsupported == []
  }

  /** The calls into models and backends that a stage makes all return; the last stage has a claim to judge. */
  ghost predicate Succeeds(s: Services, st: Stage, l: Ledger)
    requires IsWork(st) && (st != INGESTION ==> Ingests(s))
  {
    match st
    case INGESTION => Ingests(s)
    case CLAIM_DECOMPOSITION => s.decompose(l.originalClaim).Ok?
    case QUESTION_GENERATION => s.useQuestions ==> forall c :: c in l.claims ==> s.generate(c).Ok?
    case RETRIEVAL => AllRetrieved(s, Retrievers(s), AllQueries(s, l.claims, l.questions)).Ok?
    case FUSION => true
    case NLI_VERIFICATION => forall c, f ::
      c in l.claims && f in l.fused && f.claim == c.id ==> s.predict(f.text, c.text).Ok?
    case RULE_ENGINE => l.claims != []
  }

  /** What is known after a stage. */
  ghost predicate StageDone(s: Services, st: Stage, l: Ledger, e: Effect)
    requires IsWork(st) && (st != INGESTION ==> Ingests(s))
  {
    && (e.1 <==> Succeeds(s, st, l))
    && (e.1 && st != RULE_ENGINE ==> Ready(s, Advance(st), e.0))
    && (!e.1 ==> e.0.verdict.None? && EvidenceChain(e.0) && Traced(e.0))
    && (e.1 && st == RULE_ENGINE ==> EvidenceChain(e.0) && Traced(e.0) && Judged(s, e.0))
  }

  /** Every part of the ledger is what the services make of the earlier parts, and
      the verdict and the trace are those of the recorded results. */
  ghost predicate Judged(s: Services, l: Ledger) {
    var o := Classification(s.rules, l.nli, IdList(l.claims));
    && Computed(s, RULE_ENGINE, l)
    && l.verdict == Some(Judgement(s.rules, l.nli, IdList(l.claims)))
    && l.contradictions == o.contradictions && l.supporting == o.supporting && l.unsupported == o.unsupported
  }

  lemma ClaimStage(s: Services, l: Ledger)
    requires Ready(s, CLAIM_DECOMPOSITION, l) && Ingests(s)
    ensures StageDone(s, CLAIM_DECOMPOSITION, l, Decompose(s, l))
  {
    hide EvidenceChain, Judged;
    var claims := s.decompose(l.originalClaim);
    if claims.Ok? {
      CallKeepsChain(l, RecordClaims(s.sourceClaimId(l.originalClaim), claims.value));
      assert l.claims + claims.value == claims.value;
    }
  }

  lemma ClaimIsKnown(l: Ledger, c: Claim)
    requires c in l.claims
    ensures c.id in ClaimIds(l)
  {
  }

  lemma QuestionStage(s: Services, l: Ledger)
    requires Ready(s, QUESTION_GENERATION, l) && Ingests(s)
    ensures StageDone(s, QUESTION_GENERATION, l, Generate(s, l))
  {
    hide EvidenceChain, Judged, Collect, ClaimIds, ClaimsComputed;
    var all := AllQuestions(s, l.claims);
    CollectMeans(QuestionsFor(s), l.claims, Question("", "", ""));
    forall c ensures QuestionsFor(s)(c).Ok? <==> s.generate(c).Ok? { }
    if all.Ok? {
      forall i | 0 <= i < |all.value| ensures all.value[i].claim in ClaimIds(l) {
        QuestionServesClaim(s, l.claims, all.value[i]);
        var c :| c in l.claims && c.id == all.value[i].claim;
        ClaimIsKnown(l, c);
      }
      CallKeepsChain(l, RecordQuestions(all.value));
      assert l.questions + all.value == all.value;
    }
  }

  lemma QueriesAreKnown(s: Services, l: Ledger)
    requires EvidenceChain(l)
    ensures QueriesKnown(l, AllQueries(s, l.claims, l.questions))
  {
    hide ClaimIds, AllQueries, QueriesKnown, RetrievedKnown, FusedKnown, NliKnown, FindingsKnown, IdsKnown;
    var qs := AllQueries(s, l.claims, l.questions);
    QueriesServe(s, l.claims, l.questions);
    forall i | 0 <= i < |qs| ensures qs[i].claim in ClaimIds(l) {
      assert qs[i] in qs;
      if c :| c in l.claims && qs[i] == ClaimQuery(s, c) {
        ClaimIsKnown(l, c);
      } else {
        var p :| p in l.questions && qs[i] == QuestionQuery(s, p);
        var j :| 0 <= j < |l.questions| && l.questions[j] == p;
      }
    }
    QueriesKnownIf(l, qs);
  }

  lemma QueriesKnownIf(l: Ledger, qs: seq<Query>)
    requires forall i :: 0 <= i < |qs| ==> qs[i].claim in ClaimIds(l)
    ensures QueriesKnown(l, qs)
  {
  }

  lemma EvidenceIsKnown(s: Services, l: Ledger, evidence: seq<Retrieved>)
    requires QueriesKnown(l, l.queries) && forall r :: r in evidence ==> ServedBy(l.queries, r)
    ensures RetrievedKnown(l, evidence)
  {
    hide ClaimIds;
    forall i | 0 <= i < |evidence|
      ensures evidence[i].claim.Some? && evidence[i].query.Some?
        && evidence[i].claim.value in ClaimIds(l) && evidence[i].query.value in QueryIds(l)
    {
      assert evidence[i] in evidence;
      var q :| q in l.queries && evidence[i].claim == Some(q.claim) && evidence[i].query == Some(q.id);
      var j :| 0 <= j < |l.queries| && l.queries[j] == q;
    }
  }

  lemma RetrievalStage(s: Services, l: Ledger)
    requires Ready(s, RETRIEVAL, l) && Ingests(s)
    ensures StageDone(s, RETRIEVAL, l, RetrieveAll(s, l))
  {
    hide EvidenceChain, Judged, Collect, ClaimIds, QueryIds, AllQueries, QueriesKnown, RetrievedKnown, ServedBy,
         AllRetrieved, ClaimsComputed, QuestionsComputed;
    var queries := AllQueries(s, l.claims, l.questions);
    QueriesAreKnown(s, l);
    var told := RecordBuiltQueries(s, l).0;
    CallKeepsChain(l, RecordQueries(queries));
    assert told.queries == queries;
    var evidence := AllRetrieved(s, Retrievers(s), queries);
    if evidence.Ok? {
      forall r | r in evidence.value ensures ServedBy(queries, r) { RetrievedIsServed(s, Retrievers(s), queries, r); }
      ChainKnowsQueries(told);
      EvidenceIsKnown(s, told, evidence.value);
      CallKeepsChain(told, RecordRetrieved(evidence.value));
      assert told.retrieved + evidence.value == evidence.value;
    }
  }

  lemma ChainKnowsQueries(l: Ledger)
    requires EvidenceChain(l)
    ensures QueriesKnown(l, l.queries)
  {
  }

  lemma ChainIsStamped(l: Ledger)
    requires EvidenceChain(l)
    ensures Stamped(l.retrieved)
    ensures forall r :: r in l.retrieved ==> r.claim.Some? && r.claim.value in ClaimIds(l)
  {
    hide ClaimIds, QueryIds, QueriesKnown, QuestionsKnown, FusedKnown, NliKnown, FindingsKnown, IdsKnown;
    forall r | r in l.retrieved ensures r.claim.Some? && r.query.Some? && r.claim.value in ClaimIds(l) {
      var i :| 0 <= i < |l.retrieved| && l.retrieved[i] == r;
    }
  }

  lemma FusionStage(s: Services, l: Ledger)
    requires Ready(s, FUSION, l) && Ingests(s)
    ensures StageDone(s, FUSION, l, FuseAll(s, l))
  {
    hide EvidenceChain, Judged, ClaimIds, RetrievedPairs, FusionOf, Stamped, ServedBy, ClaimsComputed,
         QuestionsComputed, RetrievalComputed;
    ChainIsStamped(l);
    var score := if s.roundRobin then BestRankScore() else RrfScore(s.k);
    var fused := FusionOf(score, s.topKFused, l.retrieved);
    forall i | 0 <= i < |fused|
      ensures fused[i].claim in ClaimIds(l) && (Some(fused[i].claim), fused[i].chunk) in RetrievedPairs(l)
    {
      FusedIsRetrieved(score, s.topKFused, l.retrieved, fused[i]);
      var r :| r in l.retrieved && r.claim == Some(fused[i].claim) && r.chunk == fused[i].chunk;
      PairIsRetrieved(l, r);
    }
    CallKeepsChain(l, RecordFused(fused));
    assert l.fused + fused == fused;
  }

  lemma PairIsRetrieved(l: Ledger, r: Retrieved)
    requires r in l.retrieved
    ensures (r.claim, r.chunk) in RetrievedPairs(l)
  {
  }

  lemma PairIsFused(l: Ledger, f: Fused)
    requires f in l.fused
    ensures (f.claim, f.chunk) in FusedPairs(l)
  {
  }

  lemma VerificationStage(s: Services, l: Ledger)
    requires Ready(s, NLI_VERIFICATION, l) && Ingests(s)
    ensures StageDone(s, NLI_VERIFICATION, l, VerifyAll(s, l))
  {
    hide EvidenceChain, Judged, ClaimIds, FusedPairs, AllVerified, ServedBy, ClaimsComputed, QuestionsComputed,
         RetrievalComputed, FusionComputed;
    VerificationFailsIff(s, l.claims, l.fused);
    var results := AllVerified(s, l.claims, l.fused);
    if results.Ok? {
      forall i | 0 <= i < |results.value|
        ensures results.value[i].claim in ClaimIds(l)
          && (results.value[i].claim, results.value[i].chunk) in FusedPairs(l)
      {
        var n := results.value[i];
        VerifiedIsFused(s, l.claims, l.fused, n);
        var c :| c in l.claims && c.id == n.claim;
        ClaimIsKnown(l, c);
        var f :| f in l.fused && f.claim == n.claim && f.chunk == n.chunk;
        PairIsFused(l, f);
      }
      CallKeepsChain(l, RecordNli(results.value));
      assert l.nli + results.value == results.value;
    }
  }

  lemma ListedIsKnown(l: Ledger, id: string)
    requires id in IdList(l.claims)
    ensures id in ClaimIds(l)
  {
    var i :| 0 <= i < |l.claims| && IdList(l.claims)[i] == id;
    ClaimIsKnown(l, l.claims[i]);
  }

  /** Classification names only listed claims. */
  lemma TraceIsKnown(s: Services, l: Ledger)
    ensures var o := Classification(s.rules, l.nli, IdList(l.claims));
      FindingsKnown(l, o.contradictions + o.supporting) && IdsKnown(l, o.unsupported)
  {
    hide ClaimIds, Classification, StatusOf, IdList;
    var ids := IdList(l.claims);
    var o := Classification(s.rules, l.nli, ids);
    var all := o.contradictions + o.supporting;
    forall i | 0 <= i < |all| ensures all[i].claim in ClaimIds(l) {
      var f := all[i];
      assert f in o.contradictions || f in o.supporting;
      TraceIsRecorded(s.rules, l.nli, ids, f, "");
      var x :| x in ids && (FoundIn(Contradicts(s.rules, x), l.nli, f) || FoundIn(Entails(s.rules, x), l.nli, f));
      ListedIsKnown(l, x);
    }
    forall i | 0 <= i < |o.unsupported| ensures o.unsupported[i] in ClaimIds(l) {
      TraceIsRecorded(s.rules, l.nli, ids, Finding("", "", 0.0), o.unsupported[i]);
      ListedIsKnown(l, o.unsupported[i]);
    }
  }

  lemma VerdictStage(s: Services, l: Ledger)
    requires Ready(s, RULE_ENGINE, l) && Ingests(s)
    ensures StageDone(s, RULE_ENGINE, l, Decide(s, l))
  {
    hide EvidenceChain, FindingsKnown, IdsKnown, Classification, Judgement, ServedBy, ClaimsComputed, QuestionsComputed,
         RetrievalComputed, FusionComputed, NliComputed;
    var ids := IdList(l.claims);
    var o := Classification(s.rules, l.nli, ids);
    TraceIsKnown(s, l);
    var record := RecordClassification(o.contradictions, o.supporting, o.unsupported);
    CallKeepsChain(l, record);
    var told := Next(l, record);
    assert told.contradictions == o.contradictions && told.supporting == o.supporting
      && told.unsupported == o.unsupported;
    CallKeepsChain(told, SetVerdict(Judgement(s.rules, told.nli, ids)));
  }

  /** Every stage fails exactly when a model or backend raises, or there is no claim
      to judge: no stage's output is ever rejected by the ledger. */
  lemma NoOutputIsRejected(s: Services, st: Stage, l: Ledger)
    requires IsWork(st) && (st != INGESTION ==> Ingests(s)) && Ready(s, st, l)
    ensures StageDone(s, st, l, Effects(s, st, l))
  {
    hide Decompose, Generate, RetrieveAll, FuseAll, VerifyAll, Decide, EvidenceChain, Judged, Traced, ClaimsComputed,
         QuestionsComputed, RetrievalComputed, FusionComputed, NliComputed;
    match st
    case INGESTION =>
    case CLAIM_DECOMPOSITION => ClaimStage(s, l);
    case QUESTION_GENERATION => QuestionStage(s, l);
    case RETRIEVAL => RetrievalStage(s, l);
    case FUSION => FusionStage(s, l);
    case NLI_VERIFICATION => VerificationStage(s, l);
    case RULE_ENGINE => VerdictStage(s, l);
  }

  // ----- whole runs -----

  /** The first stage with a raising call, judged by the services alone. */
  ghost function FirstFailure(s: Services, st: Stage, l: Ledger): Option<Stage>
    requires IsWork(st) || st == COMPLETE
    requires st != INGESTION ==> Ingests(s)
    decreases Rank(st)
  {
    hide Effects;
    if st == COMPLETE then None
    else if !Succeeds(s, st, l) then Some(st)
    else FirstFailure(s, Advance(st), Effects(s, st, l).0)
  }

  /** How a run ends: complete, judged and without errors, or with one error and no verdict. */
  ghost predicate EndsWell(s: Services, end: (Ledger, Control), failure: Option<Stage>) {
    && EvidenceChain(end.0) && Traced(end.0)
    && match failure
       case None => end.1 == Control(COMPLETE, []) && Judged(s, end.0)
       case Some(st) => end.1 == Control(ERROR, [st]) && end.0.verdict.None?
  }

  lemma {:induction false} RestEndsWell(s: Services, st: Stage, l: Ledger)
    requires IsWork(st) && (st != INGESTION ==> Ingests(s)) && Ready(s, st, l)
    ensures EndsWell(s, From(s, st, l), FirstFailure(s, st, l))
    decreases Rank(st)
  {
    hide Effects, EvidenceChain, Judged, Traced, Ready;
    NoOutputIsRejected(s, st, l);
    UnfoldStage(s, st, l);
    var e := Effects(s, st, l);
    UnfoldFailure(s, st, l);
    if e.1 && st != RULE_ENGINE {
      RestEndsWell(s, Advance(st), e.0);
    }
  }

  lemma UnfoldFailure(s: Services, st: Stage, l: Ledger)
    requires IsWork(st) && (st != INGESTION ==> Ingests(s))
    requires Effects(s, st, l).1 <==> Succeeds(s, st, l)
    ensures var e := Effects(s, st, l);
      FirstFailure(s, st, l) == if !e.1 then Some(st) else if st == RULE_ENGINE then None
        else FirstFailure(s, Advance(st), e.0)
  {
    hide Effects;
  }

  lemma FreshIsReady(s: Services, claim: string)
    ensures Ready(s, INGESTION, Fresh(claim))
  {
  }

  /** Every run, whatever the models do: it ends COMPLETE with the verdict of its
      recorded results and no errors, or ERROR with exactly one error, at the first
      stage where a call raised, and no verdict; its evidence chain holds. */
  lemma EveryRunEndsWell(s: Services, claim: string)
    ensures EndsWell(s, WholeRun(s, claim), FirstFailure(s, INGESTION, Fresh(claim)))
  {
    hide EndsWell, From, FirstFailure, Ready;
    FreshIsReady(s, claim);
    RestEndsWell(s, INGESTION, Fresh(claim));
  }

  /** The node machine and the straight-line runner, run side by side: same final
      ledger when nothing raises, same stage when something does. */
  method RunBoth(s: Services, claim: string) returns (runner: RunResult, machine: GraphMachine, result: Result<Ledger>)
    ensures fresh(machine)
    ensures result.Ok? <==> runner.Finished?
    ensures runner.Finished? ==>
      result == Ok(runner.ledger) && machine.control == Control(COMPLETE, []) && runner.ledger.verdict.Some?
    ensures runner.RaisedAt? ==>
      machine.control == Control(ERROR, [runner.stage]) && machine.service.ledger.verdict.None?
    ensures (machine.service.ledger, machine.control) == WholeRun(s, claim)
  {
    hide WholeRun, EvidenceChain, Traced, FirstFailure;
    EveryRunEndsWell(s, claim);
    runner := RunStraight(s, claim);
    machine := new GraphMachine(s, claim);
    machine.Invoke();
    var ledger := machine.service.ledger;
    result := if machine.control.stage == ERROR || ledger.verdict.None? then Raised else Ok(ledger);
  }

  /** Every cited pair of a contradiction traces to a retrieved record whose query serves that claim. */
  lemma ContradictionsAreTraced(s: Services, l: Ledger, f: Finding)
    requires EvidenceChain(l) && Traced(l) && Judged(s, l) && f in l.contradictions
    ensures exists r, q :: r in l.retrieved && q in l.queries && r.claim == Some(f.claim) && r.chunk == f.chunk
              && r.query == Some(q.id) && q.claim == f.claim
  {
    hide Classification, Judgement, StatusOf, EvidenceChain, IdList;
    TraceIsRecorded(s.rules, l.nli, IdList(l.claims), f, "");
    var x :| x in IdList(l.claims) && FoundIn(Contradicts(s.rules, x), l.nli, f);
    var n :| n in l.nli && Contradicts(s.rules, x)(n) && f == Finding(n.claim, n.chunk, n.score);
    ResultIsRetrieved(l, n);
    var r :| r in l.retrieved && r.claim == Some(n.claim) && r.chunk == n.chunk;
    var q :| q in l.queries && r.claim == Some(q.claim) && r.query == Some(q.id);
  }

  lemma ResultIsRetrieved(l: Ledger, n: NliResult)
    requires EvidenceChain(l) && n in l.nli
    ensures exists r :: r in l.retrieved && r.claim == Some(n.claim) && r.chunk == n.chunk
  {
    hide ClaimIds, QueriesKnown, QuestionsKnown, RetrievedKnown, FindingsKnown, IdsKnown;
    var i :| 0 <= i < |l.nli| && l.nli[i] == n;
    var f :| f in l.fused && (f.claim, f.chunk) == (n.claim, n.chunk);
    var j :| 0 <= j < |l.fused| && l.fused[j] == f;
  }

  /** The final verdict in terms of the models: CONTRADICTORY exactly when, for some
      claim of the decomposition, the model calls a fused record of that claim a
      contradiction with a score at or above the threshold. */
  lemma VerdictOfPredictions(s: Services, l: Ledger)
    requires Judged(s, l)
    ensures l.verdict.value.kind == CONTRADICTORY <==>
      exists c, f :: c in l.claims && f in l.fused && f.claim == c.id && CallsContradiction(s, c, f)
  {
    hide Classification, Judgement, AllVerified, Fuses, AllRetrieved, AllQueries, AllQuestions;
    var ids := IdList(l.claims);
    ContradictoryIff(s.rules, l.nli, ids);
    if n :| n in l.nli && n.claim in ids && n.kind == Contradiction && n.score >= s.rules.contradiction {
      VerifiedIsPredicted(s, l.claims, l.fused, n);
      var c, f :| c in l.claims && f in l.fused && f.claim == c.id && s.predict(f.text, c.text) == Ok((n.kind, n.score))
                  && n.claim == c.id && n.chunk == f.chunk;
      assert CallsContradiction(s, c, f);
    }
    if c, f :| c in l.claims && f in l.fused && f.claim == c.id && CallsContradiction(s, c, f) {
      EveryFusedIsVerified(s, l.claims, l.fused, c, f);
      var i :| 0 <= i < |l.claims| && l.claims[i] == c;
      assert ids[i] == c.id;
    }
  }

  predicate CallsContradiction(s: Services, c: Claim, f: Fused) {
    var p := s.predict(f.text, c.text);
    p.Ok? && p.value.0 == Contradiction && p.value.1 >= s.rules.contradiction
  }

  /** In a judged ledger the verdict is CONTRADICTORY exactly when a contradiction is recorded. */
  lemma VerdictAgreesWithTrace(s: Services, l: Ledger)
    requires Judged(s, l)
    ensures l.verdict.value.kind == CONTRADICTORY <==> l.contradictions != []
  {
    hide Classification, Judgement, IdList;
    ContradictoryIff(s.rules, l.nli, IdList(l.claims));
  }
}
