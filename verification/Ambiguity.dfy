/** When an exact match is flagged `ambiguous` although `str.count` sees only
    occurrences that do not overlap. */
module Ambiguity {
  import opened Canon
  import opened Matching

  /** `q` occurs at two different places. */
  ghost predicate Twice(text: string, q: string) {
    exists i: nat, j: nat :: i < j && OccursAt(text, q, i) && OccursAt(text, q, j)
  }

  predicate IsBorder(q: string, k: nat) { 0 < k < |q| && q[k..] == q[..|q| - k] }

  /** Some proper end of `q` is also its beginning, so that it can overlap itself. */
  predicate Bordered(q: string) { exists k: nat :: k < |q| && IsBorder(q, k) }

  lemma OverlapMakesBorder(text: string, q: string, i: nat, j: nat)
    requires OccursAt(text, q, i) && OccursAt(text, q, j) && i < j < i + |q|
    ensures IsBorder(q, j - i)
  {
    var k := j - i;
    forall x | 0 <= x < |q| - k ensures q[k..][x] == q[..|q| - k][x] {
      assert text[i..i + |q|][k + x] == text[j + x] == text[j..j + |q|][x];
    }
  }

  /** The shortest text in which a bordered string overlaps itself. */
  function Overlapped(q: string, k: nat): string
    requires k < |q|
  {
    q[..k] + q
  }

  lemma OverlappedOccursTwice(q: string, k: nat)
    requires IsBorder(q, k)
    ensures Twice(Overlapped(q, k), q) && CountFrom(Overlapped(q, k), q, 0) <= 1
  {
    var text := Overlapped(q, k);
    assert text[0..|q|] == q[..k] + q[..|q| - k] == q[..k] + q[k..] == q;
    assert OccursAt(text, q, 0) && OccursAt(text, q, k);
    CountSeesDisjointPairs(text, q);
  }

  lemma UnborderedIsCounted(text: string, q: string)
    requires q != "" && !Bordered(q)
    ensures CountFrom(text, q, 0) > 1 <==> Twice(text, q)
  {
    CountSeesDisjointPairs(text, q);
    if i: nat, j: nat :| i < j && OccursAt(text, q, i) && OccursAt(text, q, j) {
      assert i + |q| <= j by { BorderOrDisjoint(text, q, i, j); }
    }
  }

  lemma BorderOrDisjoint(text: string, q: string, i: nat, j: nat)
    requires i < j && OccursAt(text, q, i) && OccursAt(text, q, j)
    ensures i + |q| <= j || Bordered(q)
  {
    if j < i + |q| { OverlapMakesBorder(text, q, i, j); }
  }

  /** A count above one means more than one occurrence, in every text, exactly for
      the strings without a border. */
  lemma CountsEveryRepeatIff(q: string)
    requires q != ""
    ensures (forall text :: CountFrom(text, q, 0) > 1 <==> Twice(text, q)) <==> !Bordered(q)
  {
    if Bordered(q) {
      var k: nat :| k < |q| && IsBorder(q, k);
      OverlappedOccursTwice(q, k);
    } else {
      forall text ensures CountFrom(text, q, 0) > 1 <==> Twice(text, q) { UnborderedIsCounted(text, q); }
    }
  }

  lemma OverlappedIsCanonical(q: string, k: nat)
    requires Canonical(q) && 0 < k < |q|
    ensures Canonical(Overlapped(q, k)) && CanonText(Overlapped(q, k)) == Overlapped(q, k)
  {
    hide IsSpace, MapChar;
    CanonicalIsFixed(Overlapped(q, k));
  }

  lemma ExactExists(config: ProvenanceConfig, quote: string, window: string) returns (m: QuoteMatch)
    requires CanonText(quote) != "" && exists i: nat :: OccursAt(CanonText(window), CanonText(quote), i)
    ensures Resolves(config, quote, window, m) && m.tier == Exact
    ensures m.ambiguous <==> CountFrom(CanonText(window), CanonText(quote), 0) > 1
  {
    m := ExactMatch(window, CanonText(quote));
  }

  /** "Flagged iff the quote occurs more than once" holds in every window exactly
      for the quotes whose canonical form has no border. */
  lemma AmbiguousMeansRepeatedIff(config: ProvenanceConfig, quote: string)
    requires CanonText(quote) != ""
    ensures (forall window, m :: Resolves(config, quote, window, m) && m.tier == Exact ==>
               (m.ambiguous <==> Twice(CanonText(window), CanonText(quote))))
            <==> !Bordered(CanonText(quote))
  {
    hide Resolves, GlyphsOf, CanonText, CountFrom, Canonical;
    var q := CanonText(quote);
    if Bordered(q) {
      var k: nat :| k < |q| && IsBorder(q, k);
      CanonIsCanonical(quote);
      OverlappedIsCanonical(q, k);
      OverlappedOccursTwice(q, k);
      var m := ExactExists(config, quote, Overlapped(q, k));
    } else {
      forall window, m | Resolves(config, quote, window, m) && m.tier == Exact
        ensures m.ambiguous <==> Twice(CanonText(window), q)
      {
        FlagIsCount(config, quote, window, m);
        UnborderedIsCounted(CanonText(window), q);
      }
    }
  }

  lemma FlagIsCount(config: ProvenanceConfig, quote: string, window: string, m: QuoteMatch)
    requires Resolves(config, quote, window, m) && m.tier == Exact
    ensures CanonText(quote) != "" && (m.ambiguous <==> CountFrom(CanonText(window), CanonText(quote), 0) > 1)
  {
  }

  /** A flagged match always repeats: only the other direction can fail. */
  lemma AmbiguousIsRepeated(config: ProvenanceConfig, quote: string, window: string, m: QuoteMatch)
    requires Resolves(config, quote, window, m) && m.tier == Exact && m.ambiguous
    ensures Twice(CanonText(window), CanonText(quote))
  {
    hide Resolves;
    FlagIsCount(config, quote, window, m);
    AmbiguousMeansDisjoint(config, quote, window, m);
  }

  /** The quote `aa` occurs twice in the window `aaa`, and its match is not flagged. */
  lemma OverlapIsNotFlagged(config: ProvenanceConfig) returns (m: QuoteMatch)
    ensures Resolves(config, "aa", "aaa", m) && m.tier == Exact && !m.ambiguous
    ensures Twice(CanonText("aaa"), CanonText("aa"))
  {
    hide GlyphsOf, Resolves;
    assert Canonical("aa") && Canonical("aaa");
    CanonicalIsFixed("aa");
    CanonicalIsFixed("aaa");
    assert IsBorder("aa", 1) && Overlapped("aa", 1) == "aaa";
    OverlappedOccursTwice("aa", 1);
    m := ExactExists(config, "aa", "aaa");
  }
}
