/** Classification and verdict said of the fields of the results alone. */
module Verdicts {
  import opened Schemas
  import opened Rules
  import Order

  /** Some result of the claim is a contradiction at or above the threshold. */
  ghost predicate IsContradicted(c: RuleConfig, results: seq<NliResult>, id: string) {
    exists r :: r in results && r.claim == id && r.kind == Contradiction && r.score >= c.contradiction
  }

  /** Some result of the claim is an entailment at or above the threshold. */
  ghost predicate IsEntailed(c: RuleConfig, results: seq<NliResult>, id: string) {
    exists r :: r in results && r.claim == id && r.kind == Entailment && r.score >= c.entailment
  }

  lemma StatusIs(c: RuleConfig, results: seq<NliResult>, id: string)
    ensures StatusOf(c, results, id) == Contradicted <==> IsContradicted(c, results, id)
    ensures StatusOf(c, results, id) == Supported <==> !IsContradicted(c, results, id) && IsEntailed(c, results, id)
    ensures StatusOf(c, results, id) == Unresolved <==> !IsContradicted(c, results, id) && !IsEntailed(c, results, id)
  {
    hide Filter, StatusOf;
    StatusMeans(c, results, id);
    match StatusOf(c, results, id) { case Contradicted => case Supported => case Unresolved => }
    forall r
      ensures Contradicts(c, id)(r) <==> r.claim == id && r.kind == Contradiction && r.score >= c.contradiction
      ensures Entails(c, id)(r) <==> r.claim == id && r.kind == Entailment && r.score >= c.entailment
    {
    }
  }

  /** The status recorded for every listed claim. */
  lemma StatusesAre(c: RuleConfig, results: seq<NliResult>, ids: seq<string>, id: string)
    ensures var statuses := Classification(c, results, ids).statuses;
      && (id in statuses <==> id in ids)
      && (id in ids ==>
            && (statuses[id] == Contradicted <==> IsContradicted(c, results, id))
            && (statuses[id] == Supported <==> !IsContradicted(c, results, id) && IsEntailed(c, results, id))
            && (statuses[id] == Unresolved <==> !IsContradicted(c, results, id) && !IsEntailed(c, results, id)))
  {
    hide IsContradicted, IsEntailed, StatusOf;
    StatusesAreRight(c, results, ids);
    StatusIs(c, results, id);
  }

  /** The finding is a result of this label with a score of at least `least`. */
  ghost predicate IsResult(results: seq<NliResult>, kind: Label, least: real, f: Finding) {
    exists r :: r in results && r.kind == kind && r.score >= least && f == Finding(r.claim, r.chunk, r.score)
  }

  /** Recorded as contradictions are exactly the contradictions of listed claims
      at or above the threshold, as support the entailments of listed claims at
      or above theirs that no contradiction overrides, as unsupported the rest. */
  lemma RecordedAre(c: RuleConfig, results: seq<NliResult>, ids: seq<string>, f: Finding, id: string)
    ensures var o := Classification(c, results, ids);
      && (f in o.contradictions <==> f.claim in ids && IsResult(results, Contradiction, c.contradiction, f))
      && (f in o.supporting <==>
            f.claim in ids && IsResult(results, Entailment, c.entailment, f) && !IsContradicted(c, results, f.claim))
      && (id in o.unsupported <==> id in ids && !IsContradicted(c, results, id) && !IsEntailed(c, results, id))
  {
    hide StatusOf, Classification, IsContradicted, IsEntailed, IsResult, FoundIn;
    TraceIsRecorded(c, results, ids, f, id);
    StatusIs(c, results, id);
    StatusIs(c, results, f.claim);
    forall x
      ensures FoundIn(Contradicts(c, x), results, f) <==>
        f.claim == x && IsResult(results, Contradiction, c.contradiction, f)
      ensures FoundIn(Entails(c, x), results, f) <==> f.claim == x && IsResult(results, Entailment, c.entailment, f)
    {
      FoundMeans(c, results, x, f);
    }
  }

  lemma FoundMeans(c: RuleConfig, results: seq<NliResult>, x: string, f: Finding)
    ensures FoundIn(Contradicts(c, x), results, f) <==>
      f.claim == x && IsResult(results, Contradiction, c.contradiction, f)
    ensures FoundIn(Entails(c, x), results, f) <==> f.claim == x && IsResult(results, Entailment, c.entailment, f)
  {
  }

  /** The verdict: contradicted as soon as one claim is; a gap blocks it only under
      the strict policy; consistent in all remaining cases. */
  lemma VerdictIs(c: RuleConfig, results: seq<NliResult>, ids: seq<string>)
    ensures var kind := Judgement(c, results, ids).kind;
      && (kind == CONTRADICTORY <==> exists id :: id in ids && IsContradicted(c, results, id))
      && (kind == INSUFFICIENT_EVIDENCE <==>
            && c.strict && (forall id :: id in ids ==> !IsContradicted(c, results, id))
            && exists id :: id in ids && !IsEntailed(c, results, id))
      && (kind == CONSISTENT <==>
            forall id :: id in ids ==>
              !IsContradicted(c, results, id) && (c.strict ==> IsEntailed(c, results, id)))
  {
    hide StatusOf, Judgement, IsContradicted, IsEntailed;
    GapIff(c, results, ids);
    match Judgement(c, results, ids).kind { case CONSISTENT => case CONTRADICTORY => case INSUFFICIENT_EVIDENCE => }
    forall id
      ensures StatusOf(c, results, id) == Contradicted <==> IsContradicted(c, results, id)
      ensures StatusOf(c, results, id) == Supported <==> !IsContradicted(c, results, id) && IsEntailed(c, results, id)
      ensures StatusOf(c, results, id) == Unresolved <==> !IsContradicted(c, results, id) && !IsEntailed(c, results, id)
    {
      StatusIs(c, results, id);
    }
    OneContradicts(c, results, ids);
  }

  lemma OneContradicts(c: RuleConfig, results: seq<NliResult>, ids: seq<string>)
    ensures Judgement(c, results, ids).kind == CONTRADICTORY <==>
      exists id :: id in ids && IsContradicted(c, results, id)
  {
    hide Judgement, Classification;
    ContradictoryIff(c, results, ids);
    if r :| r in results && r.claim in ids && r.kind == Contradiction && r.score >= c.contradiction {
      assert IsContradicted(c, results, r.claim);
    }
  }

  /** The claims a verdict names, each once: the contradicted ones when it is
      contradictory, otherwise none; and always the unresolved ones. The rule that fired goes with the verdict. */
  lemma ClaimsNamed(c: RuleConfig, results: seq<NliResult>, ids: seq<string>, id: string)
    ensures var v := Judgement(c, results, ids);
      && (id in v.contradicted <==> id in ids && IsContradicted(c, results, id))
      && (id in v.unresolved <==> id in ids && !IsContradicted(c, results, id) && !IsEntailed(c, results, id))
      && Order.NoDuplicates(v.contradicted) && Order.NoDuplicates(v.unresolved)
    ensures var v := Judgement(c, results, ids);
      && (v.kind == CONTRADICTORY <==> v.contradicted != []) && (v.kind == INSUFFICIENT_EVIDENCE ==> v.unresolved != [])
      && v.firedRule == match v.kind
                        case CONTRADICTORY => "rule_1_contradiction"
                        case INSUFFICIENT_EVIDENCE => "rule_2_unresolved"
                        case CONSISTENT =>
                          if v.unresolved == [] then "rule_3_all_supported" else "rule_3_no_contradiction"
  {
    hide StatusOf, Classification, IsContradicted, IsEntailed, Filter;
    var o := Classification(c, results, ids);
    StatusesAreRight(c, results, ids);
    StatusIs(c, results, id);
    FilterMembers(HasStatus(o, Contradicted), o.claims, id);
    FilterMembers(HasStatus(o, Unresolved), o.claims, id);
    Order.DistinctMembers(ids, id);
    KeptOnce(HasStatus(o, Contradicted), o.claims);
    KeptOnce(HasStatus(o, Unresolved), o.claims);
    var contradicted := Filter(HasStatus(o, Contradicted), o.claims);
    if contradicted == [] { assert id !in contradicted; }
  }

  lemma {:induction false} KeptOnce<T>(keep: T -> bool, xs: seq<T>)
    requires Order.NoDuplicates(xs)
    ensures Order.NoDuplicates(Filter(keep, xs))
  {
    if xs != [] {
      var front, last := xs[..|xs| - 1], xs[|xs| - 1];
      KeptOnce(keep, front);
      FilterMembers(keep, front, last);
    }
  }
}
