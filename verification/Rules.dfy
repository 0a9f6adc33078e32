/** Claim classification and the deterministic verdict
    (`classify`, `ThresholdRuleEngine`, and the offline `verdict_for_row`). */
module Rules {
  import opened Schemas
  import opened Grouping
  import Order

  datatype Label = Entailment | Contradiction | Neutral

  datatype NliResult = NliResult(claim: string, chunk: string, kind: Label, score: real)

  datatype RuleConfig = RuleConfig(contradiction: real, entailment: real, strict: bool)

  datatype Status = Contradicted | Supported | Unresolved

  /** A recorded contradiction or support. */
  datatype Finding = Finding(claim: string, chunk: string, score: real)

  /** `claims` lists the keys of the status dict in insertion order. */
  datatype Outcome = Outcome(claims: seq<string>, statuses: map<string, Status>, contradictions: seq<Finding>,
                             supporting: seq<Finding>, unsupported: seq<string>)

  // ----- what a claim's results say -----

  function Contradicts(c: RuleConfig, id: string): NliResult -> bool {
    (r: NliResult) => r.claim == id && r.kind == Contradiction && r.score >= c.contradiction
  }

  function Entails(c: RuleConfig, id: string): NliResult -> bool {
    (r: NliResult) => r.claim == id && r.kind == Entailment && r.score >= c.entailment
  }

  /** Contradiction dominates support; a claim without either is unresolved. */
  function StatusOf(c: RuleConfig, results: seq<NliResult>, id: string): Status {
    if Filter(Contradicts(c, id), results) != [] then Contradicted
    else if Filter(Entails(c, id), results) != [] then Supported
    else Unresolved
  }

  function Findings(results: seq<NliResult>): seq<Finding> {
    seq(|results|, i requires 0 <= i < |results| => Finding(results[i].claim, results[i].chunk, results[i].score))
  }

  function FoundFor(c: RuleConfig, results: seq<NliResult>,
                    id: string): (found: (seq<Finding>, seq<Finding>, seq<string>)) {
    match StatusOf(c, results, id)
    case Contradicted => (Findings(Filter(Contradicts(c, id), results)), [], [])
    case Supported => ([], Findings(Filter(Entails(c, id), results)), [])
    case Unresolved => ([], [], [id])
  }

  function Classification(c: RuleConfig, results: seq<NliResult>, ids: seq<string>): (o: Outcome) {
    if ids == [] then Outcome([], map[], [], [], [])
    else
      var o, id := Classification(c, results, ids[..|ids| - 1]), ids[|ids| - 1];
      var found := FoundFor(c, results, id);
      Outcome(if id in o.claims then o.claims else o.claims + [id], o.statuses[id := StatusOf(c, results, id)],
              o.contradictions + found.0, o.supporting + found.1, o.unsupported + found.2)
  }

  // ----- classify -----

  function OfClaim(id: string): NliResult -> bool { (r: NliResult) => r.claim == id }

  predicate ByClaim(ids: seq<string>, results: seq<NliResult>, byClaim: map<string, seq<NliResult>>, id: string) {
    && (id in ids ==> id in byClaim)
    && (if id in byClaim then byClaim[id] else []) == Filter(OfClaim(id), results)
  }

  method GroupByClaim(results: seq<NliResult>, ids: seq<string>) returns (byClaim: map<string, seq<NliResult>>)
    ensures forall id :: ByClaim(ids, results, byClaim, id)
  {
    byClaim := map id | id in ids :: [];
    for i := 0 to |results|
      invariant forall id :: ByClaim(ids, results[..i], byClaim, id)
    {
      var r := results[i];
      ghost var was, next := byClaim, i + 1;
      byClaim := byClaim[r.claim := (if r.claim in byClaim then byClaim[r.claim] else []) + [r]];
      assert results[..next] == results[..i] + [r];
      forall id ensures ByClaim(ids, results[..next], byClaim, id) {
        assert ByClaim(ids, results[..i], was, id);
        FilterAppend(OfClaim(id), results[..i], r);
      }
    }
    assert results[..|results|] == results;
  }

  lemma FilterFilter(c: RuleConfig, results: seq<NliResult>, id: string)
    ensures Filter(Contradicts(c, id), Filter(OfClaim(id), results)) == Filter(Contradicts(c, id), results)
    ensures Filter(Entails(c, id), Filter(OfClaim(id), results)) == Filter(Entails(c, id), results)
  {
    hide Filter;
    FilterWithin(Contradicts(c, id), OfClaim(id), results);
    FilterWithin(Entails(c, id), OfClaim(id), results);
  }

  method Classify(results: seq<NliResult>, ids: seq<string>, c: RuleConfig) returns (o: Outcome)
    ensures o == Classification(c, results, ids)
  {
    hide ByClaim, Filter;
    var byClaim := GroupByClaim(results, ids);
    o := Outcome([], map[], [], [], []);
    for i := 0 to |ids|
      invariant o == Classification(c, results, ids[..i])
    {
      var id := ids[i];
      assert ids[..i + 1][..i] == ids[..i];
      assert ByClaim(ids, results, byClaim, id);
      var own := OwnResults(byClaim, id, results, ids);
      FilterFilter(c, results, id);
      var contradicting := Filter(Contradicts(c, id), own);
      var entailing := Filter(Entails(c, id), own);
      var claims := if id in o.claims then o.claims else o.claims + [id];
      if contradicting != [] {
        o := Outcome(claims, o.statuses[id := Contradicted], o.contradictions + Findings(contradicting),
                     o.supporting, o.unsupported);
      } else if entailing != [] {
        o := Outcome(claims, o.statuses[id := Supported], o.contradictions,
                     o.supporting + Findings(entailing), o.unsupported);
      } else {
        o := Outcome(claims, o.statuses[id := Unresolved], o.contradictions, o.supporting, o.unsupported + [id]);
      }
    }
    assert ids[..|ids|] == ids;
  }

  /** `results_by_claim.get(id, [])` */
  function OwnResults(byClaim: map<string, seq<NliResult>>, id: string, ghost results: seq<NliResult>,
                      ghost ids: seq<string>)
    : (own: seq<NliResult>)
    requires ByClaim(ids, results, byClaim, id)
    ensures own == Filter(OfClaim(id), results)
  {
    if id in byClaim then byClaim[id] else []
  }

  // ----- ThresholdRuleEngine.evaluate -----

  datatype Kind = CONSISTENT | CONTRADICTORY | INSUFFICIENT_EVIDENCE

  datatype Verdict = Verdict(kind: Kind, firedRule: string, contradicted: seq<string>, unresolved: seq<string>)

  function HasStatus(o: Outcome, s: Status): string -> bool { id => id in o.statuses && o.statuses[id] == s }

  function VerdictFrom(o: Outcome, c: RuleConfig): Verdict {
    var contradicted := Filter(HasStatus(o, Contradicted), o.claims);
    var unresolved := Filter(HasStatus(o, Unresolved), o.claims);
    if contradicted != [] then Verdict(CONTRADICTORY, "rule_1_contradiction", contradicted, unresolved)
    else if unresolved != [] && c.strict then Verdict(INSUFFICIENT_EVIDENCE, "rule_2_unresolved", [], unresolved)
    else
      var rule := if unresolved == [] then "rule_3_all_supported" else "rule_3_no_contradiction";
      Verdict(CONSISTENT, rule, [], unresolved)
  }

  /** The engine's verdict as a function of the ledger's results and claims. */
  function Judgement(c: RuleConfig, results: seq<NliResult>, ids: seq<string>): Verdict {
    VerdictFrom(Classification(c, results, ids), c)
  }

  method Evaluate(results: seq<NliResult>, ids: seq<string>, c: RuleConfig) returns (v: Result<Verdict>)
    ensures v == if ids == [] then Raised else Ok(Judgement(c, results, ids))
  {
    if ids == [] { return Raised; }
    var o := Classify(results, ids, c);
    return Ok(VerdictFrom(o, c));
  }

  // ----- what the verdict means -----

  lemma StatusMeans(c: RuleConfig, results: seq<NliResult>, id: string)
    ensures StatusOf(c, results, id) == Contradicted <==> exists r :: r in results && Contradicts(c, id)(r)
    ensures StatusOf(c, results, id) == Unresolved <==>
      forall r :: r in results ==> !Contradicts(c, id)(r) && !Entails(c, id)(r)
  {
    hide Filter;
    FilterIsEmpty(Contradicts(c, id), results);
    FilterIsEmpty(Entails(c, id), results);
  }

  lemma FilterIsEmpty<T(!new)>(keep: T -> bool, xs: seq<T>)
    ensures Filter(keep, xs) == [] <==> forall x :: x in xs ==> !keep(x)
  {
    if Filter(keep, xs) != [] {
      FilterMembers(keep, xs, Filter(keep, xs)[0]);
    }
    forall x | x in xs && keep(x) ensures Filter(keep, xs) != [] { FilterMembers(keep, xs, x); }
  }

  /** Every listed claim is classified, by its own results alone. */
  lemma {:induction false} StatusesAreRight(c: RuleConfig, results: seq<NliResult>, ids: seq<string>)
    ensures Classification(c, results, ids).claims == Order.Distinct(ids)
    ensures forall id :: id in Classification(c, results, ids).statuses <==> id in ids
    ensures forall id :: id in ids ==> Classification(c, results, ids).statuses[id] == StatusOf(c, results, id)
  {
    hide StatusOf, FoundFor, Filter;
    if ids != [] {
      StatusesAreRight(c, results, ids[..|ids| - 1]);
      assert ids == ids[..|ids| - 1] + [ids[|ids| - 1]];
    }
  }

  ghost predicate FoundIn(keep: NliResult -> bool, results: seq<NliResult>, f: Finding) {
    exists r :: r in results && keep(r) && f == Finding(r.claim, r.chunk, r.score)
  }

  lemma FindingsMembers(keep: NliResult -> bool, results: seq<NliResult>, f: Finding)
    ensures f in Findings(Filter(keep, results)) <==> FoundIn(keep, results, f)
  {
    hide Filter;
    var kept := Filter(keep, results);
    if f in Findings(kept) {
      var i :| 0 <= i < |kept| && Findings(kept)[i] == f;
      FilterMembers(keep, results, kept[i]);
    }
    if r :| r in results && keep(r) && f == Finding(r.claim, r.chunk, r.score) {
      FilterMembers(keep, results, r);
      var i :| 0 <= i < |kept| && kept[i] == r;
      assert Findings(kept)[i] == f;
    }
  }

  lemma FoundForMembers(c: RuleConfig, results: seq<NliResult>, id: string, f: Finding)
    ensures f in FoundFor(c, results, id).0 <==> FoundIn(Contradicts(c, id), results, f)
    ensures f in FoundFor(c, results, id).1 <==>
      FoundIn(Entails(c, id), results, f) && StatusOf(c, results, id) != Contradicted
    ensures id in FoundFor(c, results, id).2 <==> StatusOf(c, results, id) == Unresolved
  {
    hide Filter, FoundIn, Findings;
    FindingsMembers(Contradicts(c, id), results, f);
    FindingsMembers(Entails(c, id), results, f);
    assert Findings([]) == [] by { NoFindings(); }
  }

  lemma NoFindings()
    ensures Findings([]) == []
  {
  }

  /** The recorded trace: every contradiction of a listed claim, every support
      of a listed claim that is not contradicted, and every unresolved claim. */
  lemma {:induction false} TraceIsRecorded(c: RuleConfig, results: seq<NliResult>, ids: seq<string>, f: Finding,
                                           id: string)
    ensures var o := Classification(c, results, ids);
      && (f in o.contradictions <==> exists x :: x in ids && FoundIn(Contradicts(c, x), results, f))
      && (f in o.supporting <==>
        exists x :: x in ids && FoundIn(Entails(c, x), results, f) && StatusOf(c, results, x) != Contradicted)
      && (id in o.unsupported <==> id in ids && StatusOf(c, results, id) == Unresolved)
  {
    hide FoundIn, StatusOf, FoundFor;
    if ids != [] {
      var front, last := ids[..|ids| - 1], ids[|ids| - 1];
      TraceIsRecorded(c, results, front, f, id);
      FoundForMembers(c, results, last, f);
      UnsupportedIsItself(c, results, last, id);
      assert ids == front + [last];
    }
  }

  lemma UnsupportedIsItself(c: RuleConfig, results: seq<NliResult>, x: string, id: string)
    ensures id in FoundFor(c, results, x).2 <==> id == x && StatusOf(c, results, x) == Unresolved
  {
    hide Filter;
  }

  lemma SomeHasStatus(c: RuleConfig, results: seq<NliResult>, ids: seq<string>, s: Status)
    ensures var o := Classification(c, results, ids);
      Filter(HasStatus(o, s), o.claims) != [] <==> exists id :: id in ids && StatusOf(c, results, id) == s
  {
    hide StatusOf, Filter;
    var o := Classification(c, results, ids);
    StatusesAreRight(c, results, ids);
    FilterIsEmpty(HasStatus(o, s), o.claims);
    forall id ensures id in o.claims <==> id in ids { Order.DistinctMembers(ids, id); }
  }

  /** CONTRADICTORY iff some listed claim has a contradiction at or above the
      threshold, iff the recorded contradictions are non-empty. */
  lemma ContradictoryIff(c: RuleConfig, results: seq<NliResult>, ids: seq<string>)
    ensures Judgement(c, results, ids).kind == CONTRADICTORY <==>
      exists r :: r in results && r.claim in ids && r.kind == Contradiction && r.score >= c.contradiction
    ensures Judgement(c, results, ids).kind == CONTRADICTORY <==> Classification(c, results, ids).contradictions != []
  {
    hide StatusOf, Filter, Classification;
    SomeHasStatus(c, results, ids, Contradicted);
    var recorded := Classification(c, results, ids).contradictions;
    if recorded != [] { TraceIsRecorded(c, results, ids, recorded[0], ""); }
    forall id ensures StatusOf(c, results, id) == Contradicted <==> exists r :: r in results && Contradicts(c, id)(r) {
      StatusMeans(c, results, id);
    }
    if id :| id in ids && StatusOf(c, results, id) == Contradicted {
      var r :| r in results && Contradicts(c, id)(r);
      assert FoundIn(Contradicts(c, id), results, Finding(r.claim, r.chunk, r.score));
      TraceIsRecorded(c, results, ids, Finding(r.claim, r.chunk, r.score), "");
    }
    if r :| r in results && r.claim in ids && r.kind == Contradiction && r.score >= c.contradiction {
      assert Contradicts(c, r.claim)(r);
    }
  }

  /** The other two verdicts: a gap blocks consistency only under the strict policy. */
  lemma GapIff(c: RuleConfig, results: seq<NliResult>, ids: seq<string>)
    ensures Judgement(c, results, ids).kind == INSUFFICIENT_EVIDENCE <==>
      && c.strict && (forall id :: id in ids ==> StatusOf(c, results, id) != Contradicted)
      && exists id :: id in ids && StatusOf(c, results, id) == Unresolved
    ensures Judgement(c, results, ids).kind == CONSISTENT <==>
      forall id ::
        id in ids ==> StatusOf(c, results, id) == Supported || (!c.strict && StatusOf(c, results, id) == Unresolved)
  {
    hide StatusOf, Filter, Classification;
    SomeHasStatus(c, results, ids, Contradicted);
    SomeHasStatus(c, results, ids, Unresolved);
  }

  /** Every claim of a consistent verdict under the strict policy is entailed, and none contradicted. */
  lemma StrictConsistency(c: RuleConfig, results: seq<NliResult>, ids: seq<string>, id: string)
    requires c.strict && Judgement(c, results, ids).kind == CONSISTENT && id in ids
    ensures exists r :: r in results && Entails(c, id)(r)
    ensures forall r :: r in results ==> !Contradicts(c, id)(r)
  {
    hide Judgement;
    GapIff(c, results, ids);
    StatusMeans(c, results, id);
  }

  lemma SameStatuses(c: RuleConfig, a: seq<NliResult>, b: seq<NliResult>, id: string)
    requires multiset(a) == multiset(b)
    ensures StatusOf(c, a, id) == StatusOf(c, b, id)
  {
    hide StatusOf;
    forall r ensures r in a <==> r in b { assert r in multiset(a) <==> r in multiset(b); }
    StatusMeans(c, a, id);
    StatusMeans(c, b, id);
  }

  /** The whole verdict, with its lists of claims, ignores the order of the NLI results. */
  lemma ResultOrderIrrelevant(c: RuleConfig, a: seq<NliResult>, b: seq<NliResult>, ids: seq<string>)
    requires multiset(a) == multiset(b)
    ensures Judgement(c, a, ids) == Judgement(c, b, ids)
  {
    hide StatusOf, Classification;
    StatusesAreRight(c, a, ids);
    StatusesAreRight(c, b, ids);
    var o, p := Classification(c, a, ids), Classification(c, b, ids);
    forall id ensures StatusOf(c, a, id) == StatusOf(c, b, id) { SameStatuses(c, a, b, id); }
    assert o.statuses == p.statuses;
    SameFilter(HasStatus(o, Contradicted), HasStatus(p, Contradicted), o.claims);
    SameFilter(HasStatus(o, Unresolved), HasStatus(p, Unresolved), o.claims);
  }

  lemma {:induction false} SameFilter<T(!new)>(f: T -> bool, g: T -> bool, xs: seq<T>)
    requires forall x :: f(x) == g(x)
    ensures Filter(f, xs) == Filter(g, xs)
  {
    if xs != [] { SameFilter(f, g, xs[..|xs| - 1]); }
  }

  /** Raising the contradiction threshold, or dropping results, never creates CONTRADICTORY. */
  lemma ContradictionIsMonotone(c: RuleConfig, d: RuleConfig, fewer: seq<NliResult>, more: seq<NliResult>,
                                ids: seq<string>)
    requires c.contradiction <= d.contradiction && forall r :: r in fewer ==> r in more
    ensures Judgement(d, fewer, ids).kind == CONTRADICTORY ==> Judgement(c, more, ids).kind == CONTRADICTORY
  {
    hide Judgement, Classification;
    ContradictoryIff(d, fewer, ids);
    ContradictoryIff(c, more, ids);
  }

  /** Raising the entailment threshold never turns a verdict into CONSISTENT. */
  lemma ConsistencyIsMonotone(c: RuleConfig, d: RuleConfig, results: seq<NliResult>, ids: seq<string>)
    requires c.contradiction == d.contradiction && c.strict == d.strict && c.entailment <= d.entailment
    ensures Judgement(d, results, ids).kind == CONSISTENT ==> Judgement(c, results, ids).kind == CONSISTENT
  {
    hide Judgement, StatusOf;
    GapIff(c, results, ids);
    GapIff(d, results, ids);
    forall id ensures StatusOf(d, results, id) == Supported ==> StatusOf(c, results, id) == Supported
              ensures StatusOf(d, results, id) == Unresolved ==> StatusOf(c, results, id) != Contradicted
    {
      StatusMeans(c, results, id);
      StatusMeans(d, results, id);
    }
  }

  // ----- verdict_for_row -----

  function Opposes(c: RuleConfig): NliResult -> bool {
    (r: NliResult) => r.kind == Contradiction && r.score >= c.contradiction
  }

  function Backs(c: RuleConfig): NliResult -> bool {
    (r: NliResult) => r.kind == Entailment && r.score >= c.entailment
  }

  function RowStatus(c: RuleConfig, rows: map<string, seq<NliResult>>, id: string): Status {
    var own := if id in rows then rows[id] else [];
    if Filter(Opposes(c), own) != [] then Contradicted
    else if Filter(Backs(c), own) != [] then Supported
    else Unresolved
  }

  lemma RowStatusCases(c: RuleConfig, rows: map<string, seq<NliResult>>, id: string)
    ensures var own := if id in rows then rows[id] else [];
      RowStatus(c, rows, id) == if Filter(Opposes(c), own) != [] then Contradicted
                                else if Filter(Backs(c), own) != [] then Supported else Unresolved
  {
    hide Filter;
  }

  lemma RowStatusIs(c: RuleConfig, rows: map<string, seq<NliResult>>, id: string)
    ensures RowStatus(c, rows, id) == Contradicted <==>
      exists r :: id in rows && r in rows[id] && r.kind == Contradiction && r.score >= c.contradiction
    ensures RowStatus(c, rows, id) == Supported <==>
      && (forall r :: id in rows && r in rows[id] ==> !(r.kind == Contradiction && r.score >= c.contradiction))
      && exists r :: id in rows && r in rows[id] && r.kind == Entailment && r.score >= c.entailment
  {
    hide Filter;
    var own := if id in rows then rows[id] else [];
    FilterIsEmpty(Opposes(c), own);
    FilterIsEmpty(Backs(c), own);
  }

  method VerdictForRow(rows: map<string, seq<NliResult>>, ids: seq<string>, c: RuleConfig) returns (kind: Kind)
    ensures kind == CONTRADICTORY <==> exists id :: id in ids && RowStatus(c, rows, id) == Contradicted
    ensures kind == INSUFFICIENT_EVIDENCE <==>
      && (forall id :: id in ids ==> RowStatus(c, rows, id) != Contradicted)
      && exists id :: id in ids && RowStatus(c, rows, id) == Unresolved
    ensures kind == CONTRADICTORY <==> exists id, r ::
      id in ids && id in rows && r in rows[id] && r.kind == Contradiction && r.score >= c.contradiction
    ensures kind == CONSISTENT <==> forall id :: id in ids ==>
      && (forall r :: id in rows && r in rows[id] ==> !(r.kind == Contradiction && r.score >= c.contradiction))
      && exists r :: id in rows && r in rows[id] && r.kind == Entailment && r.score >= c.entailment
  {
    hide Filter, RowStatus;
    var statuses: seq<Status> := [];
    for i := 0 to |ids|
      invariant |statuses| == i && forall k :: 0 <= k < i ==> statuses[k] == RowStatus(c, rows, ids[k])
    {
      var id := ids[i];
      var own := if id in rows then rows[id] else [];
      var contradicting, entailing := Filter(Opposes(c), own), Filter(Backs(c), own);
      if contradicting != [] {
        statuses := statuses + [Contradicted];
      } else if entailing != [] {
        statuses := statuses + [Supported];
      } else {
        statuses := statuses + [Unresolved];
      }
      assert statuses[i] == RowStatus(c, rows, id) by { RowStatusCases(c, rows, id); }
    }
    forall id
      ensures RowStatus(c, rows, id) in {Contradicted, Supported, Unresolved}
      ensures RowStatus(c, rows, id) == Contradicted <==>
        exists r :: id in rows && r in rows[id] && r.kind == Contradiction && r.score >= c.contradiction
      ensures RowStatus(c, rows, id) == Supported <==>
        && (forall r :: id in rows && r in rows[id] ==> !(r.kind == Contradiction && r.score >= c.contradiction))
        && exists r :: id in rows && r in rows[id] && r.kind == Entailment && r.score >= c.entailment
    {
      RowStatusIs(c, rows, id);
      match RowStatus(c, rows, id) { case Contradicted => case Supported => case Unresolved => }
    }
    SeenAmong(c, rows, ids, statuses, Contradicted);
    SeenAmong(c, rows, ids, statuses, Unresolved);
    if Contradicted in statuses { return CONTRADICTORY; }
    if Unresolved in statuses { return INSUFFICIENT_EVIDENCE; }
    return CONSISTENT;
  }

  lemma SeenAmong(c: RuleConfig, rows: map<string, seq<NliResult>>, ids: seq<string>, statuses: seq<Status>, s: Status)
    requires |statuses| == |ids| && forall k :: 0 <= k < |ids| ==> statuses[k] == RowStatus(c, rows, ids[k])
    ensures s in statuses <==> exists id :: id in ids && RowStatus(c, rows, id) == s
  {
    hide RowStatus;
    if s in statuses { var k :| 0 <= k < |statuses| && statuses[k] == s; assert ids[k] in ids; }
    if id :| id in ids && RowStatus(c, rows, id) == s {
      var k :| 0 <= k < |ids| && ids[k] == id;
      assert statuses[k] == s;
    }
  }

  /** The dumped rows hold each claim's own results. */
  ghost predicate RowsOf(results: seq<NliResult>, rows: map<string, seq<NliResult>>) {
    forall id :: (if id in rows then rows[id] else []) == Filter(OfClaim(id), results)
  }

  /** The offline verdict is the engine's exactly when there is a claim and the
      policy is strict, or some claim is contradicted, or none is unresolved. On
      no claims the engine raises and it answers CONSISTENT; otherwise the engine
      answers CONSISTENT and it answers INSUFFICIENT_EVIDENCE. */
  method FaithfulIff(results: seq<NliResult>, rows: map<string, seq<NliResult>>, ids: seq<string>, c: RuleConfig)
    returns (engine: Result<Verdict>, offline: Kind)
    requires RowsOf(results, rows)
    ensures (engine.Ok? && engine.value.kind == offline) <==>
      && ids != []
      && (c.strict || (exists id :: id in ids && StatusOf(c, results, id) == Contradicted)
          || (forall id :: id in ids ==> StatusOf(c, results, id) != Unresolved))
    ensures engine.Raised? <==> ids == []
    ensures ids == [] ==> offline == CONSISTENT
    ensures engine.Ok? && engine.value.kind != offline ==>
      engine.value.kind == CONSISTENT && offline == INSUFFICIENT_EVIDENCE
  {
    hide StatusOf, RowStatus, Judgement, Filter;
    engine := Evaluate(results, ids, c);
    offline := VerdictForRow(rows, ids, c);
    GapIff(c, results, ids);
    forall id ensures StatusOf(c, results, id) in {Contradicted, Supported, Unresolved} {
      match StatusOf(c, results, id)
      case Contradicted =>
      case Supported =>
      case Unresolved =>
    }
    forall id ensures RowStatus(c, rows, id) == StatusOf(c, results, id) { RowsAgree(c, results, rows, id); }
  }

  /** A claim without results under the lenient policy: CONSISTENT online, INSUFFICIENT_EVIDENCE offline. */
  method LenientGapDiffers(contradiction: real, entailment: real) returns (engine: Result<Verdict>, offline: Kind)
    ensures engine.Ok? && engine.value == Judgement(RuleConfig(contradiction, entailment, false), [], ["a"])
    ensures engine.value.kind == CONSISTENT && offline == INSUFFICIENT_EVIDENCE
  {
    hide StatusOf, RowStatus, Judgement, Filter;
    var c := RuleConfig(contradiction, entailment, false);
    engine := Evaluate([], ["a"], c);
    offline := VerdictForRow(map[], ["a"], c);
    GapIff(c, [], ["a"]);
    StatusMeans(c, [], "a");
    NoRowsNoStatus(c, "a");
  }

  lemma NoRowsNoStatus(c: RuleConfig, id: string)
    ensures RowStatus(c, map[], id) == Unresolved
  {
    var none: seq<NliResult> := [];
    assert Filter(Opposes(c), none) == [] && Filter(Backs(c), none) == [];
  }

  lemma RowsAgree(c: RuleConfig, results: seq<NliResult>, rows: map<string, seq<NliResult>>, id: string)
    requires RowsOf(results, rows)
    ensures RowStatus(c, rows, id) == StatusOf(c, results, id)
  {
    hide Filter;
    FilterFilter(c, results, id);
    var own := Filter(OfClaim(id), results);
    assert (if id in rows then rows[id] else []) == own;
    forall x | x in own ensures x.claim == id { FilterMembers(OfClaim(id), results, x); }
    SameFilters(Opposes(c), Contradicts(c, id), own);
    SameFilters(Backs(c), Entails(c, id), own);
  }
}
