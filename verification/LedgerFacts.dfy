/** The ledger's checks said of the records themselves: who must be there before what. */
module LedgerFacts {
  import opened Schemas
  import opened Fusion
  import opened Rules
  import opened Ledgers

  ghost predicate IsClaim(l: Ledger, id: string) { exists c :: c in l.claims && c.id == id }

  ghost predicate IsQuery(l: Ledger, id: string) { exists q :: q in l.queries && q.id == id }

  ghost predicate WasRetrieved(l: Ledger, claim: string, chunk: string) {
    exists r :: r in l.retrieved && r.claim == Some(claim) && r.chunk == chunk
  }

  ghost predicate WasFused(l: Ledger, claim: string, chunk: string) {
    exists f :: f in l.fused && f.claim == claim && f.chunk == chunk
  }

  lemma KnownAre(l: Ledger)
    ensures forall id :: id in ClaimIds(l) <==> IsClaim(l, id)
    ensures forall id :: id in QueryIds(l) <==> IsQuery(l, id)
    ensures forall c, k :: (Some(c), k) in RetrievedPairs(l) <==> WasRetrieved(l, c, k)
    ensures forall c, k :: (c, k) in FusedPairs(l) <==> WasFused(l, c, k)
  {
  }

  /** What is accepted, call by call; everything else is refused. */
  lemma AcceptedMeans(l: Ledger, c: Call)
    ensures Accepted(l, c) <==>
      match c
      case RecordClaims(_, _) => l.originalClaimId == None
      case RecordQuestions(qs) => l.questions == [] && forall q :: q in qs ==> IsClaim(l, q.claim)
      case RecordQueries(qs) => l.queries == [] && forall q :: q in qs ==> IsClaim(l, q.claim)
      case RecordRetrieved(rs) => l.retrieved == [] && forall r :: r in rs ==>
        r.claim.Some? && r.query.Some? && IsClaim(l, r.claim.value) && IsQuery(l, r.query.value)
      case RecordFused(fs) => l.fused == [] && forall f :: f in fs ==>
        IsClaim(l, f.claim) && WasRetrieved(l, f.claim, f.chunk)
      case RecordNli(ns) => l.nli == [] && forall n :: n in ns ==> IsClaim(l, n.claim) && WasFused(l, n.claim, n.chunk)
      case RecordClassification(cs, ss, us) =>
        && l.contradictions == [] && l.supporting == [] && l.unsupported == []
        && (forall f :: f in cs || f in ss ==> IsClaim(l, f.claim)) && forall id :: id in us ==> IsClaim(l, id)
      case SetVerdict(_) => l.verdict == None
  {
    hide IsClaim, IsQuery, WasRetrieved, WasFused, ClaimIds, QueryIds, RetrievedPairs, FusedPairs;
    KnownAre(l);
    match c {
      case RecordClassification(cs, ss, us) =>
        forall f ensures f in cs + ss <==> f in cs || f in ss { }
        FindingsIff(l, cs + ss);
      case _ =>
    }
  }

  lemma FindingsIff(l: Ledger, fs: seq<Finding>)
    ensures FindingsKnown(l, fs) <==> forall f :: f in fs ==> f.claim in ClaimIds(l)
  {
    hide ClaimIds;
    if forall f :: f in fs ==> f.claim in ClaimIds(l) {
      forall i | 0 <= i < |fs| ensures fs[i].claim in ClaimIds(l) { assert fs[i] in fs; }
    }
  }

  /** The chain after any calls: a finding or result is of a recorded claim, a
      result of a fused pair, a fused pair of a retrieved record, a retrieved
      record of a recorded query. */
  lemma ChainMeans(original: string, calls: seq<Call>)
    ensures var l := Run(Fresh(original), calls);
      && (forall q :: q in l.questions ==> IsClaim(l, q.claim)) && (forall q :: q in l.queries ==> IsClaim(l, q.claim))
      && (forall r :: r in l.retrieved ==>
            r.claim.Some? && r.query.Some? && IsClaim(l, r.claim.value) && IsQuery(l, r.query.value))
      && (forall f :: f in l.fused ==> IsClaim(l, f.claim) && WasRetrieved(l, f.claim, f.chunk))
      && (forall n :: n in l.nli ==> IsClaim(l, n.claim) && WasFused(l, n.claim, n.chunk))
      && (forall f :: f in l.contradictions || f in l.supporting ==> IsClaim(l, f.claim))
      && forall id :: id in l.unsupported ==> IsClaim(l, id)
  {
    hide IsClaim, IsQuery, WasRetrieved, WasFused, ClaimIds, QueryIds, RetrievedPairs, FusedPairs, Run;
    var l := Run(Fresh(original), calls);
    EveryRunIsChained(original, calls);
    KnownAre(l);
  }

  /** What an accepted call adds, and the one log entry it leaves; nothing else changes. */
  lemma AddedOnly(l: Ledger, c: Call)
    requires Accepted(l, c)
    ensures |Next(l, c).log| == |l.log| + 1 && Next(l, c).log[..|l.log|] == l.log
    ensures Next(l, c).originalClaim == l.originalClaim
    ensures c.RecordNli? || Next(l, c).nli == l.nli
    ensures c.RecordFused? || Next(l, c).fused == l.fused
    ensures c.RecordRetrieved? || Next(l, c).retrieved == l.retrieved
    ensures c.RecordQueries? || Next(l, c).queries == l.queries
    ensures c.RecordQuestions? || Next(l, c).questions == l.questions
    ensures c.RecordClaims? || (Next(l, c).claims == l.claims && Next(l, c).originalClaimId == l.originalClaimId)
    ensures c.SetVerdict? || Next(l, c).verdict == l.verdict
    ensures c.RecordNli? ==> Next(l, c).nli == c.results
    ensures c.RecordFused? ==> Next(l, c).fused == c.fused
    ensures c.RecordRetrieved? ==> Next(l, c).retrieved == c.evidence
    ensures c.RecordQueries? ==> Next(l, c).queries == c.queries
    ensures c.SetVerdict? ==> Next(l, c).verdict == Some(c.verdict)
  {
    hide QuestionsKnown, QueriesKnown, RetrievedKnown, FusedKnown, NliKnown, FindingsKnown, IdsKnown;
  }
}
