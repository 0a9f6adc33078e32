/** The verification run twice over: the straight-line `PipelineRunner` and the
    node machine of the LangGraph pipeline, which refine one specification. */
module Pipeline {
  import opened Schemas
  import opened Fusion
  import opened Rules
  import opened Ledgers
  import opened Stages
  import Order

  // ----- one stage as a function of the ledger -----

  predicate Ingests(s: Services) { s.semantic.Ok? && (s.useBm25 ==> s.lexical.Ok?) }

  function Retrievers(s: Services): seq<Retriever>
    requires Ingests(s)
  {
    [s.semantic.value] + if s.useBm25 then [s.lexical.value] else []
  }

  function Fuses(s: Services, evidence: seq<Retrieved>): Result<seq<Fused>> {
    if !Stamped(evidence) then Raised
    else Ok(FusionOf(if s.roundRobin then BestRankScore() else RrfScore(s.k), s.topKFused, evidence))
  }

  function IdList(claims: seq<Claim>): seq<string> { seq(|claims|, i requires 0 <= i < |claims| => claims[i].id) }

  /** The ledger a stage leaves, and whether it succeeded. */
  type Effect = (Ledger, bool)

  function Tell(l: Ledger, c: Call): Effect { (Next(l, c), Accepted(l, c)) }

  function Decompose(s: Services, l: Ledger): Effect {
    var claims := s.decompose(l.originalClaim);
    if claims.Raised? then (l, false) else Tell(l, RecordClaims(s.sourceClaimId(l.originalClaim), claims.value))
  }

  function Generate(s: Services, l: Ledger): Effect {
    var questions := AllQuestions(s, l.claims);
    if questions.Raised? then (l, false) else Tell(l, RecordQuestions(questions.value))
  }

  function RecordBuiltQueries(s: Services, l: Ledger): Effect {
    Tell(l, RecordQueries(AllQueries(s, l.claims, l.questions)))
  }

  /** Queries are recorded before the retrievers run, so they stay when a retriever raises. */
  function RetrieveAll(s: Services, l: Ledger): Effect
    requires Ingests(s)
  {
    var queries := AllQueries(s, l.claims, l.questions);
    var told := RecordBuiltQueries(s, l);
    var evidence := AllRetrieved(s, Retrievers(s), queries);
    if !told.1 || evidence.Raised? then (told.0, false) else Tell(told.0, RecordRetrieved(evidence.value))
  }

  function FuseAll(s: Services, l: Ledger): Effect {
    var fused := Fuses(s, l.retrieved);
    if fused.Raised? then (l, false) else Tell(l, RecordFused(fused.value))
  }

  function VerifyAll(s: Services, l: Ledger): Effect {
    var results := AllVerified(s, l.claims, l.fused);
    if results.Raised? then (l, false) else Tell(l, RecordNli(results.value))
  }

  function RecordTrace(s: Services, l: Ledger): Effect {
    var o := Classification(s.rules, l.nli, IdList(l.claims));
    Tell(l, RecordClassification(o.contradictions, o.supporting, o.unsupported))
  }

  /** The trace is recorded first, so it stays when there is nothing to judge. */
  function Decide(s: Services, l: Ledger): Effect {
    var told := RecordTrace(s, l);
    if !told.1 || IdList(l.claims) == [] then (told.0, false)
    else Tell(told.0, SetVerdict(Judgement(s.rules, told.0.nli, IdList(l.claims))))
  }

  predicate IsWork(st: Stage) { st != COMPLETE && st != ERROR }

  function Effects(s: Services, st: Stage, l: Ledger): Effect
    requires IsWork(st) && (st != INGESTION ==> Ingests(s))
  {
    match st
    case INGESTION => (l, Ingests(s))
    case CLAIM_DECOMPOSITION => Decompose(s, l)
    case QUESTION_GENERATION => Generate(s, l)
    case RETRIEVAL => RetrieveAll(s, l)
    case FUSION => FuseAll(s, l)
    case NLI_VERIFICATION => VerifyAll(s, l)
    case RULE_ENGINE => Decide(s, l)
  }

  function Advance(st: Stage): Stage
    requires IsWork(st)
  {
    match st
    case INGESTION => CLAIM_DECOMPOSITION
    case CLAIM_DECOMPOSITION => QUESTION_GENERATION
    case QUESTION_GENERATION => RETRIEVAL
    case RETRIEVAL => FUSION
    case FUSION => NLI_VERIFICATION
    case NLI_VERIFICATION => RULE_ENGINE
    case RULE_ENGINE => COMPLETE
  }

  function Rank(st: Stage): nat {
    match st
    case INGESTION => 7 case CLAIM_DECOMPOSITION => 6 case QUESTION_GENERATION => 5 case RETRIEVAL => 4
    case FUSION => 3 case NLI_VERIFICATION => 2 case RULE_ENGINE => 1 case _ => 0
  }

  /** Orchestration state; of each recorded error only its stage. */
  datatype Control = Control(stage: Stage, errors: seq<Stage>)

  /** The rest of a run from a stage on. */
  function From(s: Services, st: Stage, l: Ledger): (Ledger, Control)
    requires IsWork(st) || st == COMPLETE
    requires st != INGESTION ==> Ingests(s)
    decreases Rank(st)
  {
    hide Decompose, Generate, RetrieveAll, FuseAll, VerifyAll, Decide;
    if st == COMPLETE then (l, Control(COMPLETE, []))
    else
      var e := Effects(s, st, l);
      if e.1 then From(s, Advance(st), e.0) else (e.0, Control(ERROR, [st]))
  }

  function WholeRun(s: Services, claim: string): (Ledger, Control) { From(s, INGESTION, Fresh(claim)) }

  // ----- the node machine -----

  datatype NodeName = IngestAndIndex | DecomposeClaim | GenerateQuestions | Retrieve | Fuse | VerifyNli | DecideVerdict
                    | ErrorSink | End

  predicate Works(n: NodeName) { n != ErrorSink && n != End }

  /** The stage whose error boundary wraps a node. */
  function StageOf(n: NodeName): Stage
    requires Works(n)
  {
    match n
    case IngestAndIndex => INGESTION
    case DecomposeClaim => CLAIM_DECOMPOSITION
    case GenerateQuestions => QUESTION_GENERATION
    case Retrieve => RETRIEVAL
    case Fuse => FUSION
    case VerifyNli => NLI_VERIFICATION
    case DecideVerdict => RULE_ENGINE
  }

  function RouteAfter(next: NodeName, c: Control): NodeName { if c.stage == ERROR then ErrorSink else next }

  /** The edges of `build_graph`. */
  function NextNode(n: NodeName, c: Control): NodeName {
    match n
    case IngestAndIndex => RouteAfter(DecomposeClaim, c)
    case DecomposeClaim => RouteAfter(GenerateQuestions, c)
    case GenerateQuestions => RouteAfter(Retrieve, c)
    case Retrieve => RouteAfter(Fuse, c)
    case Fuse => RouteAfter(VerifyNli, c)
    case VerifyNli => RouteAfter(DecideVerdict, c)
    case DecideVerdict => End
    case ErrorSink => End
    case End => End
  }

  class GraphMachine {
    const s: Services
    const service: LedgerService
    var control: Control
    var semantic: Option<Retriever>
    var lexical: Option<Retriever>

    constructor (s: Services, claim: string)
      ensures this.s == s && fresh(service) && service.ledger == Fresh(claim) && control == Control(INGESTION, [])
    {
      this.s := s;
      service := new LedgerService(Fresh(claim));
      control := Control(INGESTION, []);
      semantic, lexical := None, None;
    }

    /** The run context holds the retrievers ingestion built. */
    ghost predicate HasRetrievers()
      reads this
    {
      Ingests(s) && semantic == Some(s.semantic.value) && (s.useBm25 ==> lexical == Some(s.lexical.value))
    }

    method IngestNode() returns (r: Result<()>)
      modifies this`semantic, this`lexical
      ensures r.Ok? <==> Ingests(s)
      ensures r.Ok? ==> HasRetrievers()
    {
      if s.semantic.Raised? { return Raised; }
      semantic := Some(s.semantic.value);
      if s.useBm25 {
        if s.lexical.Raised? { return Raised; }
        lexical := Some(s.lexical.value);
      }
      return Ok(());
    }

    method DecomposeNode() returns (r: Result<()>)
      modifies service
      ensures (service.ledger, r.Ok?) == Decompose(s, old(service.ledger))
    {
      var claims := s.decompose(service.ledger.originalClaim);
      if claims.Raised? { return Raised; }
      r := service.RecordAtomicClaims(s.sourceClaimId(service.ledger.originalClaim), claims.value);
    }

    method GenerateNode() returns (r: Result<()>)
      modifies service
      ensures (service.ledger, r.Ok?) == Generate(s, old(service.ledger))
    {
      var questions: Result<seq<Question>> := Ok([]);
      if s.useQuestions {
        questions := CollectAll(QuestionsFor(s), service.ledger.claims);
        if questions.Raised? { return Raised; }
      }
      r := service.RecordProbeQuestions(questions.value);
    }

    method RetrieveNode() returns (r: Result<()>)
      requires HasRetrievers()
      modifies service
      ensures (service.ledger, r.Ok?) == RetrieveAll(s, old(service.ledger))
    {
      var retrievers := [semantic.value];
      if s.useBm25 { retrievers := retrievers + [lexical.value]; }
      assert retrievers == Retrievers(s);
      var queries := BuildRetrievalQueries(s, service.ledger.claims, service.ledger.questions);
      r := service.RecordRetrievalQueries(queries);
      if r.Raised? { return; }
      var evidence := RetrieveForQueries(s, retrievers, queries);
      if evidence.Raised? { return Raised; }
      r := service.RecordRetrievedEvidence(evidence.value);
    }

    method FuseNode() returns (r: Result<()>)
      modifies service
      ensures (service.ledger, r.Ok?) == FuseAll(s, old(service.ledger))
    {
      var fused: Result<seq<Fused>>;
      if s.roundRobin {
        fused := RoundRobinFuse(service.ledger.retrieved, s.topKFused);
      } else {
        fused := FuseEvidence(service.ledger.retrieved, s.k, s.topKFused);
      }
      if fused.Raised? { return Raised; }
      r := service.RecordFusedEvidence(fused.value);
    }

    method VerifyNode() returns (r: Result<()>)
      modifies service
      ensures (service.ledger, r.Ok?) == VerifyAll(s, old(service.ledger))
    {
      var results := Verify(s, service.ledger.claims, service.ledger.fused);
      if results.Raised? { return Raised; }
      r := service.RecordNliResults(results.value);
    }

    method VerdictNode() returns (r: Result<()>)
      modifies service
      ensures (service.ledger, r.Ok?) == Decide(s, old(service.ledger))
    {
      var ids := IdList(service.ledger.claims);
      var o := Classify(service.ledger.nli, ids, s.rules);
      r := service.RecordClassificationRecords(o.contradictions, o.supporting, o.unsupported);
      if r.Raised? { return; }
      var verdict := Evaluate(service.ledger.nli, ids, s.rules);
      if verdict.Raised? { return Raised; }
      r := service.SetFinalVerdict(verdict.value);
    }

    method CallNode(n: NodeName) returns (r: Result<()>)
      requires Works(n) && (n != IngestAndIndex ==> HasRetrievers())
      modifies this`semantic, this`lexical, service
      ensures (service.ledger, r.Ok?) == Effects(s, StageOf(n), old(service.ledger))
      ensures r.Ok? ==> HasRetrievers()
    {
      hide Decompose, Generate, RetrieveAll, FuseAll, VerifyAll, Decide;
      match n
      case IngestAndIndex => r := IngestNode();
      case DecomposeClaim => r := DecomposeNode();
      case GenerateQuestions => r := GenerateNode();
      case Retrieve => r := RetrieveNode();
      case Fuse => r := FuseNode();
      case VerifyNli => r := VerifyNode();
      case DecideVerdict => r := VerdictNode();
    }

    /** A node inside its error boundary: a raised exception becomes a recorded error. */
    method RunNode(n: NodeName)
      requires Works(n) && (n != IngestAndIndex ==> HasRetrievers())
      modifies this, service
      ensures var e := Effects(s, StageOf(n), old(service.ledger));
        service.ledger == e.0 && (e.1 ==> HasRetrievers()) &&
        control == if e.1 then old(control).(stage := Advance(StageOf(n)))
          else Control(ERROR, old(control).errors + [StageOf(n)])
    {
      hide Effects;
      var r := CallNode(n);
      if r.Ok? {
        control := control.(stage := Advance(StageOf(n)));
      } else {
        control := Control(ERROR, control.errors + [StageOf(n)]);
      }
    }

    /** The compiled graph, from START until END. */
    method Invoke()
      requires control == Control(INGESTION, []) && service.ledger == Fresh(service.ledger.originalClaim)
      modifies this, service
      ensures (service.ledger, control) == WholeRun(s, old(service.ledger.originalClaim))
    {
      hide Effects, From;
      ghost var whole := WholeRun(s, service.ledger.originalClaim);
      var node := IngestAndIndex;
      while node != End
        invariant Works(node) ==> control == Control(StageOf(node), []) && (node != IngestAndIndex ==> HasRetrievers())
        invariant Works(node) ==> From(s, StageOf(node), service.ledger) == whole
        invariant !Works(node) ==> (service.ledger, control) == whole
        decreases if Works(node) then 2 + Rank(StageOf(node)) else if node == ErrorSink then 1 else 0
      {
        if node != ErrorSink {
          UnfoldStage(s, StageOf(node), service.ledger);
          RunNode(node);
          assert control.stage == ERROR ==> control.errors == [StageOf(node)];
        }
        node := NextNode(node, control);
      }
    }

    /** `LangGraphPipeline.run`: raises on a recorded error or a missing verdict. */
    method Run() returns (r: Result<Ledger>)
      requires control == Control(INGESTION, []) && service.ledger == Fresh(service.ledger.originalClaim)
      modifies this, service
      ensures var (l, c) := WholeRun(s, old(service.ledger.originalClaim));
        r == if c.stage == ERROR || l.verdict.None? then Raised else Ok(l)
    {
      Invoke();
      if control.stage == ERROR { return Raised; }
      if service.ledger.verdict.None? { return Raised; }
      return Ok(service.ledger);
    }
  }

  // ----- the straight-line runner -----

  datatype RunResult = Finished(ledger: Ledger) | RaisedAt(stage: Stage)

  /** What the runner returns where the node machine ends like this. */
  function AsRunner(end: (Ledger, Control)): RunResult {
    if end.1.stage == COMPLETE then Finished(end.0)
    else if end.1.errors != [] then RaisedAt(end.1.errors[0])
    else RaisedAt(ERROR)
  }

  /** `PipelineRunner.run`: local variables instead of ledger reads, one stage
      after the other, and the node machine's result on every input. */
  method RunStraight(s: Services, original: string) returns (r: RunResult)
    ensures r == AsRunner(WholeRun(s, original))
  {
    hide Decompose, Generate, RetrieveAll, FuseAll, VerifyAll, Decide, From;
    UnfoldRun(s, original);
    if s.semantic.Raised? { return RaisedAt(INGESTION); }
    var retrievers := [s.semantic.value];
    if s.useBm25 {
      if s.lexical.Raised? { return RaisedAt(INGESTION); }
      retrievers := retrievers + [s.lexical.value];
    }
    assert retrievers == Retrievers(s);
    var service := new LedgerService(Fresh(original));
    r := RunFromClaims(s, retrievers, original, service);
  }

  method RunFromClaims(s: Services, retrievers: seq<Retriever>, original: string, service: LedgerService)
    returns (r: RunResult)
    requires Ingests(s) && retrievers == Retrievers(s) && service.ledger == Fresh(original)
    modifies service
    ensures r == AsRunner(From(s, CLAIM_DECOMPOSITION, Fresh(original)))
  {
    hide Generate, RetrieveAll, FuseAll, VerifyAll, Decide, From, Accepted;
    UnfoldStage(s, CLAIM_DECOMPOSITION, service.ledger);
    var claims := s.decompose(original);
    if claims.Raised? { return RaisedAt(CLAIM_DECOMPOSITION); }
    var told := service.RecordAtomicClaims(s.sourceClaimId(original), claims.value);
    if told.Raised? { return RaisedAt(CLAIM_DECOMPOSITION); }
    FreshClaims(original, s.sourceClaimId(original), claims.value);
    r := RunFromQuestions(s, retrievers, claims.value, service);
  }

  lemma FreshClaims(original: string, id: string, claims: seq<Claim>)
    ensures After(Fresh(original), RecordClaims(id, claims)).claims == claims
    ensures After(Fresh(original), RecordClaims(id, claims)).questions == []
  {
  }

  method RunFromQuestions(s: Services, retrievers: seq<Retriever>, claims: seq<Claim>, service: LedgerService)
    returns (r: RunResult)
    requires Ingests(s) && retrievers == Retrievers(s) && service.ledger.claims == claims
      && service.ledger.questions == []
    modifies service
    ensures r == AsRunner(From(s, QUESTION_GENERATION, old(service.ledger)))
  {
    hide RetrieveAll, FuseAll, VerifyAll, Decide, From, Accepted, Collect;
    UnfoldStage(s, QUESTION_GENERATION, service.ledger);
    var all: Result<seq<Question>> := Ok([]);
    if s.useQuestions {
      all := CollectAll(QuestionsFor(s), claims);
      if all.Raised? { return RaisedAt(QUESTION_GENERATION); }
    }
    ghost var before := service.ledger;
    var told := service.RecordProbeQuestions(all.value);
    if told.Raised? { return RaisedAt(QUESTION_GENERATION); }
    assert service.ledger.questions == all.value;
    r := RunFromQueries(s, retrievers, claims, all.value, service);
  }

  method RunFromQueries(s: Services, retrievers: seq<Retriever>, claims: seq<Claim>, questions: seq<Question>,
                        service: LedgerService)
    returns (r: RunResult)
    requires Ingests(s) && retrievers == Retrievers(s)
    requires service.ledger.claims == claims && service.ledger.questions == questions
    modifies service
    ensures r == AsRunner(From(s, RETRIEVAL, old(service.ledger)))
  {
    hide FuseAll, VerifyAll, Decide, From, Accepted, Collect, AllQueries;
    UnfoldStage(s, RETRIEVAL, service.ledger);
    var queries := BuildRetrievalQueries(s, claims, questions);
    var told := service.RecordRetrievalQueries(queries);
    if told.Raised? { return RaisedAt(RETRIEVAL); }
    var evidence := RetrieveForQueries(s, retrievers, queries);
    if evidence.Raised? { return RaisedAt(RETRIEVAL); }
    told := service.RecordRetrievedEvidence(evidence.value);
    if told.Raised? { return RaisedAt(RETRIEVAL); }
    r := RunFromFusion(s, claims, service);
  }

  method RunFromFusion(s: Services, claims: seq<Claim>, service: LedgerService) returns (r: RunResult)
    requires Ingests(s) && service.ledger.claims == claims
    modifies service
    ensures r == AsRunner(From(s, FUSION, old(service.ledger)))
  {
    hide VerifyAll, Decide, From, Accepted, Collect, FusionOf;
    UnfoldStage(s, FUSION, service.ledger);
    var fused: Result<seq<Fused>>;
    if s.roundRobin {
      fused := RoundRobinFuse(service.ledger.retrieved, s.topKFused);
    } else {
      fused := FuseEvidence(service.ledger.retrieved, s.k, s.topKFused);
    }
    if fused.Raised? { return RaisedAt(FUSION); }
    var told := service.RecordFusedEvidence(fused.value);
    if told.Raised? { return RaisedAt(FUSION); }
    r := RunFromVerification(s, claims, service);
  }

  method RunFromVerification(s: Services, claims: seq<Claim>, service: LedgerService) returns (r: RunResult)
    requires Ingests(s) && service.ledger.claims == claims
    modifies service
    ensures r == AsRunner(From(s, NLI_VERIFICATION, old(service.ledger)))
  {
    hide Decide, From, Accepted, Collect;
    UnfoldStage(s, NLI_VERIFICATION, service.ledger);
    var results := Verify(s, claims, service.ledger.fused);
    if results.Raised? { return RaisedAt(NLI_VERIFICATION); }
    var told := service.RecordNliResults(results.value);
    if told.Raised? { return RaisedAt(NLI_VERIFICATION); }
    r := RunFromVerdict(s, claims, service);
  }

  method RunFromVerdict(s: Services, claims: seq<Claim>, service: LedgerService) returns (r: RunResult)
    requires Ingests(s) && service.ledger.claims == claims
    modifies service
    ensures r == AsRunner(From(s, RULE_ENGINE, old(service.ledger)))
  {
    hide From, Accepted, Classification, Judgement;
    UnfoldStage(s, RULE_ENGINE, service.ledger);
    var ids := IdList(claims);
    var o := Classify(service.ledger.nli, ids, s.rules);
    var told := service.RecordClassificationRecords(o.contradictions, o.supporting, o.unsupported);
    if told.Raised? { return RaisedAt(RULE_ENGINE); }
    var verdict := Evaluate(service.ledger.nli, ids, s.rules);
    if verdict.Raised? { return RaisedAt(RULE_ENGINE); }
    told := service.SetFinalVerdict(verdict.value);
    if told.Raised? { return RaisedAt(RULE_ENGINE); }
    r := Finished(service.ledger);
  }

  lemma UnfoldStage(s: Services, st: Stage, l: Ledger)
    requires IsWork(st) && (st != INGESTION ==> Ingests(s))
    ensures var e := Effects(s, st, l);
      From(s, st, l) == if !e.1 then (e.0, Control(ERROR, [st]))
        else if st == RULE_ENGINE then (e.0, Control(COMPLETE, [])) else From(s, Advance(st), e.0)
  {
    hide Effects;
  }

  lemma UnfoldRun(s: Services, original: string)
    ensures WholeRun(s, original) ==
      if Ingests(s) then From(s, CLAIM_DECOMPOSITION, Fresh(original))
        else (Fresh(original), Control(ERROR, [INGESTION]))
  {
  }
}
