/** The model-backed fact verifier: one verdict over a claim's whole evidence set,
    every cited quote re-verified against it. */
module FactVerification {
  import opened Schemas
  import opened Canon
  import opened Matching
  import opened Fusion
  import opened Rules
  import opened Ledgers
  import opened Grouping
  import Stages
  import Pipeline

  datatype FactLabel = SUPPORTED | CONTRADICTED | NOT_MENTIONED

  datatype RawVerdict = RawVerdict(verdict: FactLabel, quotes: seq<string>, confidence: real)

  datatype Verification = Verification(claim: string, chunk: string, verdict: FactLabel, confidence: real,
                                       quotes: seq<string>)

  /** The canonical quote occurs in the canonical text. */
  ghost predicate Quotable(quote: string, text: string) {
    CanonText(quote) != "" && exists i: nat :: OccursAt(CanonText(text), CanonText(quote), i)
  }

  /** `r` is the chunk of the first record the quote can be found in. */
  ghost predicate IsCitation(quote: string, evidence: seq<Fused>, r: Option<string>) {
    match r
    case None => forall i :: 0 <= i < |evidence| ==> !Quotable(quote, evidence[i].text)
    case Some(chunk) => exists i ::
      0 <= i < |evidence| && evidence[i].chunk == chunk && Quotable(quote, evidence[i].text)
                          && forall j :: 0 <= j < i ==> !Quotable(quote, evidence[j].text)
  }

  method FindChunkContainingQuote(config: ProvenanceConfig, quote: string, evidence: seq<Fused>)
    returns (r: Option<string>)
    ensures IsCitation(quote, evidence, r)
  {
    hide Resolves, Quotable;
    for i := 0 to |evidence|
      invariant forall j :: 0 <= j < i ==> !Quotable(quote, evidence[j].text)
    {
      var m := ResolveQuote(config, quote, evidence[i].text);
      ExactMeansQuotable(config, quote, evidence[i].text, m);
      if m.tier == Exact { return Some(evidence[i].chunk); }
    }
    return None;
  }

  lemma ExactMeansQuotable(config: ProvenanceConfig, quote: string, text: string, m: QuoteMatch)
    requires Resolves(config, quote, text, m)
    ensures m.tier == Exact <==> Quotable(quote, text)
  {
    hide Resolves;
    ExactIffOccurs(config, quote, text, m);
  }

  /** Every quote can be found in some record of the evidence. */
  ghost predicate AllCited(quotes: seq<string>, evidence: seq<Fused>) {
    forall q :: 0 <= q < |quotes| ==> exists i :: 0 <= i < |evidence| && Quotable(quotes[q], evidence[i].text)
  }

  /** The anchor of a verdict: the chunk of its first quote, or the best-ranked record without one. */
  ghost predicate IsAnchor(quotes: seq<string>, evidence: seq<Fused>, chunk: string)
    requires evidence != []
  {
    if quotes == [] then chunk == evidence[0].chunk else IsCitation(quotes[0], evidence, Some(chunk))
  }

  method VerifyQuotes(config: ProvenanceConfig, quotes: seq<string>, evidence: seq<Fused>) returns (r: Result<string>)
    requires evidence != []
    ensures r.Ok? <==> AllCited(quotes, evidence)
    ensures r.Ok? ==> IsAnchor(quotes, evidence, r.value)
  {
    hide Quotable;
    var anchor := evidence[0].chunk;
    for index := 0 to |quotes|
      invariant AllCited(quotes[..index], evidence)
      invariant index == 0 ==> anchor == evidence[0].chunk
      invariant index > 0 ==> IsCitation(quotes[0], evidence, Some(anchor))
    {
      var matched := FindChunkContainingQuote(config, quotes[index], evidence);
      if matched.None? { return Raised; }
      if index == 0 { anchor := matched.value; }
    }
    return Ok(anchor);
  }

  /** A verdict the verifier lets through: it cites something, unless nothing was
      mentioned, and every citation is real. */
  ghost predicate Cited(raw: RawVerdict, evidence: seq<Fused>) {
    (raw.verdict != NOT_MENTIONED ==> raw.quotes != []) && AllCited(raw.quotes, evidence)
  }

  method ToFactVerification(config: ProvenanceConfig, raw: RawVerdict, claim: Claim, evidence: seq<Fused>)
    returns (r: Result<Verification>)
    requires evidence != []
    ensures r.Ok? <==> Cited(raw, evidence)
    ensures r.Ok? ==> r.value == Verification(claim.id, r.value.chunk, raw.verdict, raw.confidence, raw.quotes)
    ensures r.Ok? ==> IsAnchor(raw.quotes, evidence, r.value.chunk)
  {
    hide AllCited, IsAnchor;
    if raw.verdict != NOT_MENTIONED && raw.quotes == [] { return Raised; }
    var anchor := VerifyQuotes(config, raw.quotes, evidence);
    if anchor.Raised? { return Raised; }
    return Ok(Verification(claim.id, anchor.value, raw.verdict, raw.confidence, raw.quotes));
  }

  // ----- verify -----

  /** The language model: a claim and the texts of its evidence to a verdict, or an exception. */
  type Model = (string, seq<string>) -> Result<RawVerdict>

  function Texts(evidence: seq<Fused>): seq<string> {
    seq(|evidence|, i requires 0 <= i < |evidence| => evidence[i].text)
  }

  function Answer(model: Model, c: Claim, evidence: seq<Fused>): Result<RawVerdict> { model(c.text, Texts(evidence)) }

  /** A claim's evidence set can be verified: it is empty, or the model returns a verdict that is let through. */
  ghost predicate Verifiable(model: Model, c: Claim, evidence: seq<Fused>) {
    evidence == [] || (Answer(model, c, evidence).Ok? && Cited(Answer(model, c, evidence).value, evidence))
  }

  /** The verifications of one claim: none without evidence, otherwise the model's verdict, anchored. */
  ghost predicate VerifiedAs(model: Model, c: Claim, evidence: seq<Fused>, vs: seq<Verification>) {
    if evidence == [] then vs == []
    else
      && Answer(model, c, evidence).Ok? && |vs| == 1
      && var raw := Answer(model, c, evidence).value;
         && IsAnchor(raw.quotes, evidence, vs[0].chunk)
         && vs[0] == Verification(c.id, vs[0].chunk, raw.verdict, raw.confidence, raw.quotes)
  }

  method VerifySet(config: ProvenanceConfig, model: Model, claim: Claim, evidence: seq<Fused>)
    returns (r: Result<seq<Verification>>)
    ensures r.Ok? <==> Verifiable(model, claim, evidence)
    ensures r.Ok? ==> VerifiedAs(model, claim, evidence, r.value)
  {
    hide Cited, IsAnchor;
    if evidence == [] { return Ok([]); }
    var raw := model(claim.text, Texts(evidence));
    if raw.Raised? { return Raised; }
    var one := ToFactVerification(config, raw.value, claim, evidence);
    if one.Raised? { return Raised; }
    return Ok([one.value]);
  }

  // ----- all claims of a ledger -----

  function KindOf(verdict: FactLabel): Label {
    match verdict
    case SUPPORTED => Entailment
    case CONTRADICTED => Contradiction
    case NOT_MENTIONED => Neutral
  }

  function AsNli(v: Verification): NliResult { NliResult(v.claim, v.chunk, KindOf(v.verdict), v.confidence) }

  function AsNlis(vs: seq<Verification>): seq<NliResult> {
    seq(|vs|, i requires 0 <= i < |vs| => AsNli(vs[i]))
  }

  /** `to_nli_results`: raises on a verification of another claim. */
  method ToNliResults(vs: seq<Verification>, claim: Claim) returns (r: Result<seq<NliResult>>)
    ensures r.Ok? <==> forall i :: 0 <= i < |vs| ==> vs[i].claim == claim.id
    ensures r.Ok? ==> r.value == AsNlis(vs)
  {
    var results: seq<NliResult> := [];
    for i := 0 to |vs|
      invariant results == AsNlis(vs[..i]) && forall j :: 0 <= j < i ==> vs[j].claim == claim.id
    {
      if vs[i].claim != claim.id { return Raised; }
      results := results + [AsNli(vs[i])];
    }
    assert vs[..|vs|] == vs;
    return Ok(results);
  }

  /** A claim's own fused records. */
  function Own(c: Claim, fused: seq<Fused>): seq<Fused> { Filter(Fusion.OfClaim(c.id), fused) }

  lemma OwnMembers(c: Claim, fused: seq<Fused>, i: nat)
    requires i < |Own(c, fused)|
    ensures Own(c, fused)[i] in fused && Own(c, fused)[i].claim == c.id
  {
    hide Filter;
    FilterMembers(Fusion.OfClaim(c.id), fused, Own(c, fused)[i]);
  }

  function Joined(parts: seq<seq<Verification>>): seq<NliResult> {
    if parts == [] then [] else Joined(parts[..|parts| - 1]) + AsNlis(parts[|parts| - 1])
  }

  ghost predicate PartsOf(model: Model, claims: seq<Claim>, fused: seq<Fused>, parts: seq<seq<Verification>>) {
    |parts| == |claims| && forall i :: 0 <= i < |claims| ==>
      VerifiedAs(model, claims[i], Own(claims[i], fused), parts[i])
  }

  /** The results of all claims, claim by claim. */
  ghost predicate ResultsOf(model: Model, claims: seq<Claim>, fused: seq<Fused>, results: seq<NliResult>) {
    exists parts :: PartsOf(model, claims, fused, parts) && results == Joined(parts)
  }

  method VerifyClaim(config: ProvenanceConfig, model: Model, c: Claim, own: seq<Fused>)
    returns (r: Result<seq<NliResult>>, ghost vs: seq<Verification>)
    ensures r.Ok? <==> Verifiable(model, c, own)
    ensures r.Ok? ==> VerifiedAs(model, c, own, vs) && r.value == AsNlis(vs)
  {
    hide Verifiable, IsAnchor;
    var verifications := VerifySet(config, model, c, own);
    if verifications.Raised? { return Raised, []; }
    vs := verifications.value;
    r := ToNliResults(verifications.value, c);
  }

  /** The verification loop over the claims of a ledger: it raises iff some claim's evidence cannot be verified. */
  method VerifyClaims(config: ProvenanceConfig, model: Model, claims: seq<Claim>, fused: seq<Fused>)
    returns (r: Result<seq<NliResult>>)
    ensures r.Ok? <==> forall i :: 0 <= i < |claims| ==> Verifiable(model, claims[i], Own(claims[i], fused))
    ensures r.Ok? ==> ResultsOf(model, claims, fused, r.value)
  {
    hide Verifiable, VerifiedAs, Filter, AsNlis, GroupBy;
    var byClaim := Stages.GroupFused(fused);
    var results: seq<NliResult> := [];
    ghost var parts: seq<seq<Verification>> := [];
    for i := 0 to |claims|
      invariant forall j :: 0 <= j < i ==> Verifiable(model, claims[j], Own(claims[j], fused))
      invariant PartsOf(model, claims[..i], fused, parts) && results == Joined(parts)
    {
      var c := claims[i];
      GroupIsFilter(ClaimKeys(), fused, c.id);
      var own := if c.id in byClaim.of then byClaim.of[c.id] else [];
      assert own == Own(c, fused);
      ghost var vs;
      var more;
      more, vs := VerifyClaim(config, model, c, own);
      if more.Raised? { return Raised; }
      results := results + more.value;
      assert (parts + [vs])[..|parts|] == parts;
      parts := parts + [vs];
    }
    assert claims[..|claims|] == claims;
    return Ok(results);
  }

  /** `n` is the model's verdict on a claim with evidence, anchored in a record of that claim. */
  ghost predicate IsResultFor(model: Model, c: Claim, own: seq<Fused>, n: NliResult) {
    && own != [] && Answer(model, c, own).Ok?
    && var raw := Answer(model, c, own).value;
       && IsAnchor(raw.quotes, own, n.chunk)
       && n == NliResult(c.id, n.chunk, KindOf(raw.verdict), raw.confidence)
  }

  /** Results are exactly the models' verdicts on the claims with evidence. */
  lemma {:induction false} JoinedMembers(model: Model, claims: seq<Claim>, fused: seq<Fused>,
                                         parts: seq<seq<Verification>>, n: NliResult)
    requires PartsOf(model, claims, fused, parts) && n in Joined(parts)
    ensures exists c :: c in claims && IsResultFor(model, c, Own(c, fused), n)
  {
    hide Filter, IsAnchor, Own;
    var last := |parts| - 1;
    if n in AsNlis(parts[last]) {
      assert VerifiedAs(model, claims[last], Own(claims[last], fused), parts[last]);
      assert claims[last] in claims && IsResultFor(model, claims[last], Own(claims[last], fused), n);
    } else {
      JoinedMembers(model, claims[..last], fused, parts[..last], n);
      var c :| c in claims[..last] && IsResultFor(model, c, Own(c, fused), n);
      assert c in claims;
    }
  }

  lemma {:induction false} EveryClaimIsJoined(model: Model, claims: seq<Claim>, fused: seq<Fused>,
                                              parts: seq<seq<Verification>>, i: nat)
    requires PartsOf(model, claims, fused, parts) && i < |claims| && Own(claims[i], fused) != []
    ensures exists n :: n in Joined(parts) && IsResultFor(model, claims[i], Own(claims[i], fused), n)
  {
    hide Filter, IsAnchor, Own;
    var last := |parts| - 1;
    if i == last {
      assert VerifiedAs(model, claims[last], Own(claims[last], fused), parts[last]);
      var n := AsNlis(parts[last])[0];
      assert n in AsNlis(parts[last]) && n in Joined(parts);
    } else {
      EveryClaimIsJoined(model, claims[..last], fused, parts[..last], i);
      var n :| n in Joined(parts[..last]) && IsResultFor(model, claims[i], Own(claims[i], fused), n);
      assert n in Joined(parts);
    }
  }

  lemma AnchorIsOwn(quotes: seq<string>, evidence: seq<Fused>, chunk: string)
    requires evidence != [] && IsAnchor(quotes, evidence, chunk)
    ensures exists i ::
      0 <= i < |evidence| && evidence[i].chunk == chunk && (quotes != [] ==> Quotable(quotes[0], evidence[i].text))
  {
    hide Quotable;
    if quotes == [] { assert evidence[0].chunk == chunk; }
  }

  /** The ledger that holds the claims and their fused evidence accepts the results of all claims at once. */
  lemma ResultsAreAccepted(l: Ledger, model: Model, results: seq<NliResult>)
    requires EvidenceChain(l) && l.nli == [] && ResultsOf(model, l.claims, l.fused, results)
    ensures Ledgers.Accepted(l, RecordNli(results))
  {
    hide ClaimIds, FusedPairs, EvidenceChain, IsAnchor, Own;
    var parts :| PartsOf(model, l.claims, l.fused, parts) && results == Joined(parts);
    forall i | 0 <= i < |results|
      ensures results[i].claim in ClaimIds(l) && (results[i].claim, results[i].chunk) in FusedPairs(l)
    {
      JoinedMembers(model, l.claims, l.fused, parts, results[i]);
      var c :| c in l.claims && IsResultFor(model, c, Own(c, l.fused), results[i]);
      ResultIsKnown(l, model, c, results[i]);
    }
  }

  lemma ResultIsKnown(l: Ledger, model: Model, c: Claim, n: NliResult)
    requires c in l.claims && IsResultFor(model, c, Own(c, l.fused), n)
    ensures n.claim in ClaimIds(l) && (n.claim, n.chunk) in FusedPairs(l)
  {
    hide Own, IsAnchor;
    var own := Own(c, l.fused);
    AnchorIsOwn(Answer(model, c, own).value.quotes, own, n.chunk);
    var i :| 0 <= i < |own| && own[i].chunk == n.chunk;
    OwnMembers(c, l.fused, i);
  }

  /** The verdict is the model's `verdict` on claim `c`, with this score; its first
      quote occurs in a fused record of the cited chunk, every quote in some record. */
  ghost predicate RestsOnQuotes(model: Model, c: Claim, fused: seq<Fused>, verdict: FactLabel, f: Finding) {
    var own := Own(c, fused);
    && f.claim == c.id && Answer(model, c, own).Ok?
    && var raw := Answer(model, c, own).value;
       && raw.verdict == verdict && raw.confidence == f.score && raw.quotes != [] && AllCited(raw.quotes, own)
       && exists e :: e in fused && e.claim == f.claim && e.chunk == f.chunk && Quotable(raw.quotes[0], e.text)
  }

  lemma ResultRestsOnQuotes(model: Model, claims: seq<Claim>, fused: seq<Fused>, c: Claim, n: NliResult,
                            verdict: FactLabel)
    requires IsResultFor(model, c, Own(c, fused), n) && Verifiable(model, c, Own(c, fused))
    requires verdict != NOT_MENTIONED && n.kind == KindOf(verdict)
    ensures RestsOnQuotes(model, c, fused, verdict, Finding(n.claim, n.chunk, n.score))
  {
    hide Own, IsAnchor, Quotable, AllCited;
    var own := Own(c, fused);
    var raw := Answer(model, c, own).value;
    AnchorIsOwn(raw.quotes, own, n.chunk);
    var i :| 0 <= i < |own| && own[i].chunk == n.chunk && Quotable(raw.quotes[0], own[i].text);
    OwnMembers(c, fused, i);
  }

  /** What a run of `VerifyClaims` leaves on the ledger. */
  ghost predicate VerifiedLedger(model: Model, l: Ledger) {
    && (forall c :: c in l.claims ==> Verifiable(model, c, Own(c, l.fused)))
    && ResultsOf(model, l.claims, l.fused, l.nli)
  }

  lemma ResultHasClaim(model: Model, l: Ledger, n: NliResult) returns (c: Claim)
    requires VerifiedLedger(model, l) && n in l.nli
    ensures c in l.claims && IsResultFor(model, c, Own(c, l.fused), n) && Verifiable(model, c, Own(c, l.fused))
  {
    hide Own, Verifiable, IsResultFor;
    var parts :| PartsOf(model, l.claims, l.fused, parts) && l.nli == Joined(parts);
    JoinedMembers(model, l.claims, l.fused, parts, n);
    c :| c in l.claims && IsResultFor(model, c, Own(c, l.fused), n);
  }

  /** Every recorded contradiction, and every recorded support, rests on the quotes
      of a verdict the verifier let through: none cites nothing, and none cites
      what the evidence does not say. */
  lemma FindingsRestOnQuotes(config: RuleConfig, model: Model, l: Ledger, ids: seq<string>, f: Finding)
    requires VerifiedLedger(model, l)
    ensures var o := Classification(config, l.nli, ids);
      && (f in o.contradictions ==> exists c :: c in l.claims && RestsOnQuotes(model, c, l.fused, CONTRADICTED, f))
      && (f in o.supporting ==> exists c :: c in l.claims && RestsOnQuotes(model, c, l.fused, SUPPORTED, f))
  {
    hide VerifiedLedger, IsResultFor, Verifiable, Classification, StatusOf, RestsOnQuotes;
    var o := Classification(config, l.nli, ids);
    TraceIsRecorded(config, l.nli, ids, f, "");
    if f in o.contradictions {
      var x :| x in ids && FoundIn(Contradicts(config, x), l.nli, f);
      var n :| n in l.nli && Contradicts(config, x)(n) && f == Finding(n.claim, n.chunk, n.score);
      var c := ResultHasClaim(model, l, n);
      ResultRestsOnQuotes(model, l.claims, l.fused, c, n, CONTRADICTED);
    }
    if f in o.supporting {
      var x :| x in ids && FoundIn(Entails(config, x), l.nli, f);
      var n :| n in l.nli && Entails(config, x)(n) && f == Finding(n.claim, n.chunk, n.score);
      var c := ResultHasClaim(model, l, n);
      ResultRestsOnQuotes(model, l.claims, l.fused, c, n, SUPPORTED);
    }
  }

  /** The verdict in terms of the model: CONTRADICTORY exactly when, for some claim
      with evidence, it answers CONTRADICTED at or above the threshold. */
  lemma VerdictOfModel(config: RuleConfig, model: Model, l: Ledger)
    requires VerifiedLedger(model, l)
    ensures Judgement(config, l.nli, Pipeline.IdList(l.claims)).kind == CONTRADICTORY <==>
      exists c :: c in l.claims && AnswersContradicted(config, model, c, Own(c, l.fused))
  {
    hide VerifiedLedger, Verifiable, Judgement, Own, IsAnchor;
    var ids := Pipeline.IdList(l.claims);
    ContradictoryIff(config, l.nli, ids);
    if n :| n in l.nli && n.claim in ids && n.kind == Contradiction && n.score >= config.contradiction {
      var c := ResultHasClaim(model, l, n);
      assert AnswersContradicted(config, model, c, Own(c, l.fused));
    }
    if c :| c in l.claims && AnswersContradicted(config, model, c, Own(c, l.fused)) {
      var i :| 0 <= i < |l.claims| && l.claims[i] == c;
      assert ids[i] == c.id;
      var n := ClaimHasResult(model, l, i);
    }
  }

  ghost predicate AnswersContradicted(config: RuleConfig, model: Model, c: Claim, own: seq<Fused>) {
    && own != [] && Answer(model, c, own).Ok?
    && Answer(model, c, own).value.verdict == CONTRADICTED
    && Answer(model, c, own).value.confidence >= config.contradiction
  }

  lemma ClaimHasResult(model: Model, l: Ledger, i: nat) returns (n: NliResult)
    requires VerifiedLedger(model, l) && i < |l.claims| && Own(l.claims[i], l.fused) != []
    ensures n in l.nli && IsResultFor(model, l.claims[i], Own(l.claims[i], l.fused), n)
  {
    hide Own, Verifiable, IsResultFor;
    var parts :| PartsOf(model, l.claims, l.fused, parts) && l.nli == Joined(parts);
    EveryClaimIsJoined(model, l.claims, l.fused, parts, i);
    n :| n in Joined(parts) && IsResultFor(model, l.claims[i], Own(l.claims[i], l.fused), n);
  }
}
