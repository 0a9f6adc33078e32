/** The write-once evidence ledger and its service (`lncvs.ledger.service`). */
module Ledgers {
  import opened Schemas
  import opened Fusion
  import opened Rules

  datatype Claim = Claim(id: string, text: string)
  datatype Question = Question(id: string, claim: string, text: string)
  datatype Query = Query(id: string, text: string, claim: string, question: Option<string>)

  datatype Stage = INGESTION | CLAIM_DECOMPOSITION | QUESTION_GENERATION | RETRIEVAL | FUSION | NLI_VERIFICATION
                 | RULE_ENGINE | COMPLETE | ERROR

  /** `EvidenceLedger`; of each logged event only its stage. */
  datatype Ledger = Ledger(
    originalClaim: string, originalClaimId: Option<string>, claims: seq<Claim>, questions: seq<Question>,
    queries: seq<Query>, retrieved: seq<Retrieved>, fused: seq<Fused>, nli: seq<NliResult>,
    contradictions: seq<Finding>, supporting: seq<Finding>, unsupported: seq<string>,
    verdict: Option<Verdict>, log: seq<Stage>)

  function Fresh(claim: string): Ledger { Ledger(claim, None, [], [], [], [], [], [], [], [], [], None, []) }

  // ----- what each call demands -----

  function ClaimIds(l: Ledger): set<string> { set c | c in l.claims :: c.id }

  function QueryIds(l: Ledger): set<string> { set q | q in l.queries :: q.id }

  function RetrievedPairs(l: Ledger): set<(Option<string>, string)> { set r | r in l.retrieved :: (r.claim, r.chunk) }

  function FusedPairs(l: Ledger): set<(string, string)> { set f | f in l.fused :: (f.claim, f.chunk) }

  predicate QuestionsKnown(l: Ledger, questions: seq<Question>) {
    forall i :: 0 <= i < |questions| ==> questions[i].claim in ClaimIds(l)
  }

  predicate QueriesKnown(l: Ledger, queries: seq<Query>) {
    forall i :: 0 <= i < |queries| ==> queries[i].claim in ClaimIds(l)
  }

  predicate RetrievedKnown(l: Ledger, evidence: seq<Retrieved>) {
    forall i :: 0 <= i < |evidence| ==>
      && evidence[i].claim.Some? && evidence[i].query.Some?
      && evidence[i].claim.value in ClaimIds(l) && evidence[i].query.value in QueryIds(l)
  }

  predicate FusedKnown(l: Ledger, fused: seq<Fused>) {
    forall i :: 0 <= i < |fused| ==>
      fused[i].claim in ClaimIds(l) && (Some(fused[i].claim), fused[i].chunk) in RetrievedPairs(l)
  }

  predicate NliKnown(l: Ledger, results: seq<NliResult>) {
    forall i :: 0 <= i < |results| ==>
      results[i].claim in ClaimIds(l) && (results[i].claim, results[i].chunk) in FusedPairs(l)
  }

  predicate FindingsKnown(l: Ledger, findings: seq<Finding>) {
    forall i :: 0 <= i < |findings| ==> findings[i].claim in ClaimIds(l)
  }

  predicate IdsKnown(l: Ledger, ids: seq<string>) { forall i :: 0 <= i < |ids| ==> ids[i] in ClaimIds(l) }

  datatype Call =
    | RecordClaims(id: string, claims: seq<Claim>)
    | RecordQuestions(questions: seq<Question>)
    | RecordQueries(queries: seq<Query>)
    | RecordRetrieved(evidence: seq<Retrieved>)
    | RecordFused(fused: seq<Fused>)
    | RecordNli(results: seq<NliResult>)
    | RecordClassification(contradictions: seq<Finding>, supporting: seq<Finding>, unsupported: seq<string>)
    | SetVerdict(verdict: Verdict)

  /** A call is accepted once, and only if everything it refers to is on the ledger. */
  predicate Accepted(l: Ledger, c: Call) {
    match c
    case RecordClaims(_, _) => l.originalClaimId.None?
    case RecordQuestions(questions) => l.questions == [] && QuestionsKnown(l, questions)
    case RecordQueries(queries) => l.queries == [] && QueriesKnown(l, queries)
    case RecordRetrieved(evidence) => l.retrieved == [] && RetrievedKnown(l, evidence)
    case RecordFused(fused) => l.fused == [] && FusedKnown(l, fused)
    case RecordNli(results) => l.nli == [] && NliKnown(l, results)
    case RecordClassification(contradictions, supporting, unsupported) =>
      && l.contradictions == [] && l.supporting == [] && l.unsupported == []
      && FindingsKnown(l, contradictions + supporting) && IdsKnown(l, unsupported)
    case SetVerdict(_) => l.verdict.None?
  }

  /** The ledger after an accepted call. */
  function After(l: Ledger, c: Call): Ledger {
    match c
    case RecordClaims(id, claims) =>
      l.(originalClaimId := Some(id), claims := l.claims + claims, log := l.log + [CLAIM_DECOMPOSITION])
    case RecordQuestions(questions) => l.(questions := l.questions + questions, log := l.log + [QUESTION_GENERATION])
    case RecordQueries(queries) => l.(queries := l.queries + queries, log := l.log + [RETRIEVAL])
    case RecordRetrieved(evidence) => l.(retrieved := l.retrieved + evidence, log := l.log + [RETRIEVAL])
    case RecordFused(fused) => l.(fused := l.fused + fused, log := l.log + [FUSION])
    case RecordNli(results) => l.(nli := l.nli + results, log := l.log + [NLI_VERIFICATION])
    case RecordClassification(contradictions, supporting, unsupported) =>
      l.(contradictions := l.contradictions + contradictions, supporting := l.supporting + supporting,
         unsupported := l.unsupported + unsupported, log := l.log + [NLI_VERIFICATION])
    case SetVerdict(verdict) => l.(verdict := Some(verdict), log := l.log + [RULE_ENGINE])
  }

  /** A raising call changes nothing. */
  function Next(l: Ledger, c: Call): Ledger { if Accepted(l, c) then After(l, c) else l }

  function Reply(l: Ledger, c: Call): Result<()> { if Accepted(l, c) then Ok(()) else Raised }

  // ----- the service -----

  class LedgerService {
    var ledger: Ledger

    constructor (l: Ledger)
      ensures ledger == l
    {
      ledger := l;
    }

    method RecordAtomicClaims(id: string, claims: seq<Claim>) returns (r: Result<()>)
      modifies this
      ensures ledger == Next(old(ledger), RecordClaims(id, claims)) && r == Reply(old(ledger), RecordClaims(id, claims))
    {
      if ledger.originalClaimId.Some? { return Raised; }
      ledger := ledger.(originalClaimId := Some(id));
      ledger := ledger.(claims := ledger.claims + claims);
      ledger := ledger.(log := ledger.log + [CLAIM_DECOMPOSITION]);
      return Ok(());
    }

    method RecordProbeQuestions(questions: seq<Question>) returns (r: Result<()>)
      modifies this
      ensures ledger == Next(old(ledger), RecordQuestions(questions))
        && r == Reply(old(ledger), RecordQuestions(questions))
    {
      if ledger.questions != [] { return Raised; }
      var known := ClaimIds(ledger);
      for i := 0 to |questions|
        invariant ledger == old(ledger) && QuestionsKnown(ledger, questions[..i])
      {
        if questions[i].claim !in known { return Raised; }
      }
      ledger := ledger.(questions := ledger.questions + questions);
      ledger := ledger.(log := ledger.log + [QUESTION_GENERATION]);
      return Ok(());
    }

    method RecordRetrievalQueries(queries: seq<Query>) returns (r: Result<()>)
      modifies this
      ensures ledger == Next(old(ledger), RecordQueries(queries)) && r == Reply(old(ledger), RecordQueries(queries))
    {
      if ledger.queries != [] { return Raised; }
      var known := ClaimIds(ledger);
      for i := 0 to |queries|
        invariant ledger == old(ledger) && QueriesKnown(ledger, queries[..i])
      {
        if queries[i].claim !in known { return Raised; }
      }
      ledger := ledger.(queries := ledger.queries + queries);
      ledger := ledger.(log := ledger.log + [RETRIEVAL]);
      return Ok(());
    }

    method RecordRetrievedEvidence(evidence: seq<Retrieved>) returns (r: Result<()>)
      modifies this
      ensures ledger == Next(old(ledger), RecordRetrieved(evidence))
        && r == Reply(old(ledger), RecordRetrieved(evidence))
    {
      if ledger.retrieved != [] { return Raised; }
      var knownClaims, knownQueries := ClaimIds(ledger), QueryIds(ledger);
      for i := 0 to |evidence|
        invariant ledger == old(ledger) && RetrievedKnown(ledger, evidence[..i])
      {
        if evidence[i].claim.None? || evidence[i].query.None? { return Raised; }
        if evidence[i].claim.value !in knownClaims { return Raised; }
        if evidence[i].query.value !in knownQueries { return Raised; }
      }
      ledger := ledger.(retrieved := ledger.retrieved + evidence);
      ledger := ledger.(log := ledger.log + [RETRIEVAL]);
      return Ok(());
    }

    method RecordFusedEvidence(fused: seq<Fused>) returns (r: Result<()>)
      modifies this
      ensures ledger == Next(old(ledger), RecordFused(fused)) && r == Reply(old(ledger), RecordFused(fused))
    {
      if ledger.fused != [] { return Raised; }
      var known, pairs := ClaimIds(ledger), RetrievedPairs(ledger);
      for i := 0 to |fused|
        invariant ledger == old(ledger) && FusedKnown(ledger, fused[..i])
      {
        if fused[i].claim !in known { return Raised; }
        if (Some(fused[i].claim), fused[i].chunk) !in pairs { return Raised; }
      }
      ledger := ledger.(fused := ledger.fused + fused);
      ledger := ledger.(log := ledger.log + [FUSION]);
      return Ok(());
    }

    method RecordNliResults(results: seq<NliResult>) returns (r: Result<()>)
      modifies this
      ensures ledger == Next(old(ledger), RecordNli(results)) && r == Reply(old(ledger), RecordNli(results))
    {
      if ledger.nli != [] { return Raised; }
      var known, pairs := ClaimIds(ledger), FusedPairs(ledger);
      for i := 0 to |results|
        invariant ledger == old(ledger) && NliKnown(ledger, results[..i])
      {
        if results[i].claim !in known { return Raised; }
        if (results[i].claim, results[i].chunk) !in pairs { return Raised; }
      }
      ledger := ledger.(nli := ledger.nli + results);
      ledger := ledger.(log := ledger.log + [NLI_VERIFICATION]);
      return Ok(());
    }

    method RecordClassificationRecords(contradictions: seq<Finding>, supporting: seq<Finding>, unsupported: seq<string>)
      returns (r: Result<()>)
      modifies this
      ensures ledger == Next(old(ledger), RecordClassification(contradictions, supporting, unsupported))
      ensures r == Reply(old(ledger), RecordClassification(contradictions, supporting, unsupported))
    {
      if ledger.contradictions != [] || ledger.supporting != [] || ledger.unsupported != [] { return Raised; }
      var known, findings := ClaimIds(ledger), contradictions + supporting;
      for i := 0 to |findings|
        invariant ledger == old(ledger) && FindingsKnown(ledger, findings[..i])
      {
        if findings[i].claim !in known { return Raised; }
      }
      for i := 0 to |unsupported|
        invariant ledger == old(ledger) && IdsKnown(ledger, unsupported[..i])
      {
        if unsupported[i] !in known { return Raised; }
      }
      ledger := ledger.(contradictions := ledger.contradictions + contradictions);
      ledger := ledger.(supporting := ledger.supporting + supporting);
      ledger := ledger.(unsupported := ledger.unsupported + unsupported);
      ledger := ledger.(log := ledger.log + [NLI_VERIFICATION]);
      return Ok(());
    }

    method SetFinalVerdict(verdict: Verdict) returns (r: Result<()>)
      modifies this
      ensures ledger == Next(old(ledger), SetVerdict(verdict)) && r == Reply(old(ledger), SetVerdict(verdict))
    {
      if ledger.verdict.Some? { return Raised; }
      ledger := ledger.(verdict := Some(verdict));
      ledger := ledger.(log := ledger.log + [RULE_ENGINE]);
      return Ok(());
    }
  }

  // ----- every run of calls -----

  /** The evidence chain: everything recorded refers to what was recorded before it. */
  predicate EvidenceChain(l: Ledger) {
    && QuestionsKnown(l, l.questions) && QueriesKnown(l, l.queries) && RetrievedKnown(l, l.retrieved)
    && FusedKnown(l, l.fused) && NliKnown(l, l.nli)
    && FindingsKnown(l, l.contradictions) && FindingsKnown(l, l.supporting) && IdsKnown(l, l.unsupported)
  }

  /** Calls in any order, raising ones included. */
  function Run(l: Ledger, calls: seq<Call>): Ledger {
    if calls == [] then l else Next(Run(l, calls[..|calls| - 1]), calls[|calls| - 1])
  }

  lemma KnownGrows(l: Ledger, m: Ledger)
    requires ClaimIds(l) <= ClaimIds(m) && QueryIds(l) <= QueryIds(m)
    requires RetrievedPairs(l) <= RetrievedPairs(m) && FusedPairs(l) <= FusedPairs(m)
    ensures forall x :: QuestionsKnown(l, x) ==> QuestionsKnown(m, x)
    ensures forall x :: QueriesKnown(l, x) ==> QueriesKnown(m, x)
    ensures forall x :: RetrievedKnown(l, x) ==> RetrievedKnown(m, x)
    ensures forall x :: FusedKnown(l, x) ==> FusedKnown(m, x)
    ensures forall x :: NliKnown(l, x) ==> NliKnown(m, x)
    ensures forall x :: FindingsKnown(l, x) ==> FindingsKnown(m, x)
    ensures forall x :: IdsKnown(l, x) ==> IdsKnown(m, x)
  {
    hide ClaimIds, QueryIds, RetrievedPairs, FusedPairs;
  }

  lemma SetsGrow(l: Ledger, c: Call)
    requires Accepted(l, c)
    ensures ClaimIds(l) <= ClaimIds(After(l, c)) && QueryIds(l) <= QueryIds(After(l, c))
    ensures RetrievedPairs(l) <= RetrievedPairs(After(l, c)) && FusedPairs(l) <= FusedPairs(After(l, c))
  {
    var m := After(l, c);
    assert forall x :: x in l.claims ==> x in m.claims;
    assert forall x :: x in l.queries ==> x in m.queries;
    assert forall x :: x in l.retrieved ==> x in m.retrieved;
    assert forall x :: x in l.fused ==> x in m.fused;
  }

  lemma FindingsSplit(l: Ledger, a: seq<Finding>, b: seq<Finding>)
    requires FindingsKnown(l, a + b)
    ensures FindingsKnown(l, a) && FindingsKnown(l, b)
  {
    forall i | 0 <= i < |a| ensures a[i].claim in ClaimIds(l) { assert (a + b)[i] == a[i]; }
    forall i | 0 <= i < |b| ensures b[i].claim in ClaimIds(l) { assert (a + b)[|a| + i] == b[i]; }
  }

  /** No call, accepted or raising, breaks the chain. */
  lemma CallKeepsChain(l: Ledger, c: Call)
    requires EvidenceChain(l)
    ensures EvidenceChain(Next(l, c))
  {
    hide ClaimIds, QueryIds, RetrievedPairs, FusedPairs, QuestionsKnown, QueriesKnown, RetrievedKnown, FusedKnown,
         NliKnown, FindingsKnown, IdsKnown;
    if Accepted(l, c) {
      SetsGrow(l, c);
      KnownGrows(l, After(l, c));
      var m := After(l, c);
      match c
      case RecordQuestions(questions) => assert m.questions == questions;
      case RecordQueries(queries) => assert m.queries == queries;
      case RecordRetrieved(evidence) => assert m.retrieved == evidence;
      case RecordFused(fused) => assert m.fused == fused;
      case RecordNli(results) => assert m.nli == results;
      case RecordClassification(contradictions, supporting, unsupported) =>
        FindingsSplit(l, contradictions, supporting);
        assert m.contradictions == contradictions && m.supporting == supporting && m.unsupported == unsupported;
      case _ =>
    }
  }

  lemma {:induction false} RunKeepsChain(l: Ledger, calls: seq<Call>)
    requires EvidenceChain(l)
    ensures EvidenceChain(Run(l, calls))
  {
    hide EvidenceChain, Next;
    if calls != [] {
      RunKeepsChain(l, calls[..|calls| - 1]);
      CallKeepsChain(Run(l, calls[..|calls| - 1]), calls[|calls| - 1]);
    }
  }

  /** Over every run of calls on a fresh ledger the chain holds: NLI pairs are
      fused pairs, fused pairs are retrieved pairs, and those are of recorded
      claims and queries. */
  lemma EveryRunIsChained(claim: string, calls: seq<Call>)
    ensures var l := Run(Fresh(claim), calls);
      && EvidenceChain(l)
      && (forall r :: r in l.nli ==> (r.claim, r.chunk) in FusedPairs(l))
      && (forall f :: f in l.fused ==> (Some(f.claim), f.chunk) in RetrievedPairs(l))
      && (forall e ::
        e in l.retrieved ==>
          e.claim.Some? && e.claim.value in ClaimIds(l) && e.query.Some? && e.query.value in QueryIds(l))
  {
    hide Next;
    RunKeepsChain(Fresh(claim), calls);
  }

  /** `m` keeps every part of `l` that was written. */
  predicate Keeps(l: Ledger, m: Ledger) {
    && (l.originalClaimId.Some? ==> m.originalClaimId == l.originalClaimId && m.claims == l.claims)
    && (l.questions != [] ==> m.questions == l.questions) && (l.queries != [] ==> m.queries == l.queries)
    && (l.retrieved != [] ==> m.retrieved == l.retrieved) && (l.fused != [] ==> m.fused == l.fused)
    && (l.nli != [] ==> m.nli == l.nli)
    && (l.contradictions != [] || l.supporting != [] || l.unsupported != [] ==>
          (m.contradictions, m.supporting, m.unsupported) == (l.contradictions, l.supporting, l.unsupported))
    && (l.verdict.Some? ==> m.verdict == l.verdict)
    && |l.log| <= |m.log| && m.log[..|l.log|] == l.log
  }

  /** What is written once stays as written for the rest of the run. */
  lemma {:induction false} WrittenOnce(l: Ledger, calls: seq<Call>)
    ensures Keeps(l, Run(l, calls))
  {
    hide Accepted, EvidenceChain;
    if calls != [] {
      var before := Run(l, calls[..|calls| - 1]);
      WrittenOnce(l, calls[..|calls| - 1]);
      NextKeeps(before, calls[|calls| - 1]);
      KeepsTransitive(l, before, Run(l, calls));
    }
  }

  lemma NextKeeps(l: Ledger, c: Call)
    ensures Keeps(l, Next(l, c))
  {
    hide QuestionsKnown, QueriesKnown, RetrievedKnown, FusedKnown, NliKnown, FindingsKnown, IdsKnown;
  }

  lemma KeepsTransitive(l: Ledger, m: Ledger, n: Ledger)
    requires Keeps(l, m) && Keeps(m, n)
    ensures Keeps(l, n)
  {
    assert n.log[..|l.log|] == n.log[..|m.log|][..|l.log|];
  }

  /** Repeating an accepted call is refused exactly when the first one wrote
      something; claims and the verdict are always refused. */
  lemma RepeatRefusedIff(l: Ledger, c: Call)
    requires Accepted(l, c)
    ensures Accepted(After(l, c), c) <==> match c
      case RecordClaims(_, _) => false
      case RecordQuestions(questions) => questions == []
      case RecordQueries(queries) => queries == []
      case RecordRetrieved(evidence) => evidence == []
      case RecordFused(fused) => fused == []
      case RecordNli(results) => results == []
      case RecordClassification(a, b, u) => a == [] && b == [] && u == []
      case SetVerdict(_) => false
  {
    hide ClaimIds, QueryIds, RetrievedPairs, FusedPairs;
  }
}
