/** Tiered quote resolution: exact canonical substring first, then a unique
    token-aligned near match, then failure. */
module Matching {
  import opened Schemas
  import opened Canon
  import Order

  datatype Tier = Exact | Fuzzy | Failed
  datatype QuoteMatch = QuoteMatch(tier: Tier, start: nat, end: nat, ambiguous: bool)
  datatype ProvenanceConfig = ProvenanceConfig(threshold: real, margin: real)

  const DEFAULT_CONFIG := ProvenanceConfig(0.95, 0.03)
  const FAILED := QuoteMatch(Failed, 0, 0, false)

  // ----- str.find and str.count -----

  predicate OccursAt(text: string, q: string, i: nat) {
    i + |q| <= |text| && text[i..i + |q|] == q
  }

  /** `text.find(q, i)` */
  function FindFrom(text: string, q: string, i: nat): (f: int)
    ensures f >= 0 ==> i <= f && OccursAt(text, q, f) && forall k: nat :: i <= k < f ==> !OccursAt(text, q, k)
    ensures f < 0 ==> f == -1 && forall k: nat :: i <= k ==> !OccursAt(text, q, k)
    decreases |text| - i
  {
    if i + |q| > |text| then -1 else if OccursAt(text, q, i) then i else FindFrom(text, q, i + 1)
  }

  /** `text[i:].count(q)`: occurrences that do not overlap, counted greedily from the left. */
  function CountFrom(text: string, q: string, i: nat): nat
    requires q != ""
    decreases |text| - i
  {
    var f := FindFrom(text, q, i);
    if f < 0 then 0 else 1 + CountFrom(text, q, f + |q|)
  }

  /** `count > 1` detects two occurrences that do not overlap, and nothing else. */
  lemma CountSeesDisjointPairs(text: string, q: string)
    requires q != ""
    ensures CountFrom(text, q, 0) >= 1 <==> exists i: nat :: OccursAt(text, q, i)
    ensures CountFrom(text, q, 0) > 1 <==>
              exists i: nat, j: nat :: OccursAt(text, q, i) && OccursAt(text, q, j) && i + |q| <= j
  {
    var f := FindFrom(text, q, 0);
    if f >= 0 {
      var g := FindFrom(text, q, f + |q|);
      if i: nat, j: nat :| OccursAt(text, q, i) && OccursAt(text, q, j) && i + |q| <= j {
        assert f <= i;
        assert f + |q| <= j;
      }
      if g >= 0 { assert OccursAt(text, q, f) && OccursAt(text, q, g) && f + |q| <= g; }
    }
  }

  lemma CountIffFound(text: string, q: string)
    requires q != ""
    ensures CountFrom(text, q, 0) >= 1 <==> FindFrom(text, q, 0) >= 0
  {
  }

  // ----- _tokenize_with_spans -----

  datatype Token = Token(word: string, start: nat, end: nat)

  function SkipSpaces(text: string, i: nat): (j: nat)
    requires i <= |text|
    ensures i <= j <= |text| && (forall k :: i <= k < j ==> text[k] == ' ') && (j < |text| ==> text[j] != ' ')
    decreases |text| - i
  {
    if i < |text| && text[i] == ' ' then SkipSpaces(text, i + 1) else i
  }

  function WordEnd(text: string, i: nat): (j: nat)
    requires i <= |text|
    ensures i <= j <= |text| && (forall k :: i <= k < j ==> text[k] != ' ') && (j < |text| ==> text[j] == ' ')
    ensures i < |text| && text[i] != ' ' ==> i < j
    decreases |text| - i
  {
    if i < |text| && text[i] != ' ' then WordEnd(text, i + 1) else i
  }

  /** The maximal space-free runs of `text` from `i` on, in order. */
  function TokensFrom(text: string, i: nat): seq<Token>
    requires i <= |text|
    decreases |text| - i
  {
    var s := SkipSpaces(text, i);
    if s == |text| then []
    else
      var e := WordEnd(text, s);
      [Token(text[s..e], s, e)] + TokensFrom(text, e)
  }

  lemma {:induction false} TokensSkip(text: string, i: nat)
    requires i < |text| && text[i] == ' '
    ensures TokensFrom(text, i) == TokensFrom(text, i + 1)
  {
    assert SkipSpaces(text, i) == SkipSpaces(text, i + 1);
  }

  lemma {:induction false} WordEndFrom(text: string, s: nat, i: nat)
    requires s <= i <= |text| && forall k :: s <= k < i ==> text[k] != ' '
    ensures WordEnd(text, s) == WordEnd(text, i)
    decreases i - s
  {
    if s < i { WordEndFrom(text, s + 1, i); }
  }

  lemma WordFrom(text: string, s: nat, i: nat)
    requires s < i <= |text| && (forall k :: s <= k < i ==> text[k] != ' ') && (i < |text| ==> text[i] == ' ')
    ensures TokensFrom(text, s) == [Token(text[s..i], s, i)] + TokensFrom(text, i)
  {
    WordEndFrom(text, s, i);
  }

  /** The loop of `_tokenize_with_spans`; the sentinel space is index `|text|`. */
  method TokenizeWithSpans(text: string) returns (tokens: seq<Token>)
    ensures tokens == TokensFrom(text, 0)
  {
    hide TokensFrom;
    tokens := [];
    var start: Option<nat> := None;
    var sentinel := text + " ";
    for i := 0 to |text|
      invariant start.Some? ==> start.value < i && forall k :: start.value <= k < i ==> text[k] != ' '
      invariant tokens + TokensFrom(text, if start.Some? then start.value else i) == TokensFrom(text, 0)
    {
      if sentinel[i] == ' ' {
        if start.Some? {
          WordFrom(text, start.value, i);
          tokens := tokens + [Token(text[start.value..i], start.value, i)];
          start := None;
        }
        TokensSkip(text, i);
      } else if start.None? {
        start := Some(i);
      }
    }
    NoTokensAtEnd(text);
    if start.Some? {
      WordFrom(text, start.value, |text|);
      tokens := tokens + [Token(text[start.value..|text|], start.value, |text|)];
    }
  }

  lemma NoTokensAtEnd(text: string)
    ensures TokensFrom(text, |text|) == []
  {
  }

  /** A maximal space-free run. */
  ghost predicate IsWord(text: string, t: Token) {
    && t.start < t.end <= |text| && t.word == text[t.start..t.end]
    && (t.end < |text| ==> text[t.end] == ' ') && (t.start == 0 || text[t.start - 1] == ' ')
    && (forall m :: t.start <= m < t.end ==> text[m] != ' ')
  }

  /** In canonical text the tokens are its words and exactly one space separates neighbours. */
  ghost predicate Spaced(text: string, tokens: seq<Token>) {
    && (forall k :: 0 <= k < |tokens| ==> IsWord(text, tokens[k]))
    && (forall k :: 0 < k < |tokens| ==> tokens[k].start == tokens[k - 1].end + 1)
  }

  lemma NothingIsSpaced(text: string)
    ensures Spaced(text, [])
  {
  }

  lemma SpacedCons(text: string, t: Token, rest: seq<Token>)
    requires IsWord(text, t) && Spaced(text, rest) && (rest != [] ==> rest[0].start == t.end + 1)
    ensures Spaced(text, [t] + rest)
  {
    var all := [t] + rest;
    forall k | 0 <= k < |all| ensures IsWord(text, all[k]) { if k > 0 { assert all[k] == rest[k - 1]; } }
    forall k | 0 < k < |all| ensures all[k].start == all[k - 1].end + 1 { assert all[k] == rest[k - 1]; }
  }

  lemma {:induction false} CanonicalTokens(text: string, i: nat)
    requires Canonical(text) && i <= |text| && (i < |text| ==> text[i] != ' ') && (i > 0 ==> text[i - 1] == ' ')
    ensures Spaced(text, TokensFrom(text, i))
    ensures i < |text| ==> TokensFrom(text, i) != []
    ensures TokensFrom(text, i) != [] ==>
              TokensFrom(text, i)[0].start == i && TokensFrom(text, i)[|TokensFrom(text, i)| - 1].end == |text|
    decreases |text| - i
  {
    hide IsSpace, MapChar, TokensFrom, Spaced;
    if i == |text| {
      NoTokensAtEnd(text);
      NothingIsSpaced(text);
    } else {
      var e := WordEnd(text, i);
      var t := Token(text[i..e], i, e);
      WordFrom(text, i, e);
      assert IsWord(text, t);
      if e < |text| {
        TokensSkip(text, e);
        CanonicalTokens(text, e + 1);
        SpacedCons(text, t, TokensFrom(text, e + 1));
      } else {
        NoTokensAtEnd(text);
        NothingIsSpaced(text);
        SpacedCons(text, t, []);
      }
    }
  }

  // ----- _fuzzy_match -----

  /** The positions at which quote and window have the same token. */
  function Agreeing(quote: seq<string>, window: seq<Token>, s: nat, n: nat): set<nat>
    requires n <= |quote| && s + n <= |window|
  {
    set k | 0 <= k < n && window[s + k].word == quote[k]
  }

  lemma AgreeingNext(quote: seq<string>, window: seq<Token>, s: nat, n: nat)
    requires 0 < n <= |quote| && s + n <= |window|
    ensures |Agreeing(quote, window, s, n)|
      == |Agreeing(quote, window, s, n - 1)| + if window[s + n - 1].word == quote[n - 1] then 1 else 0
  {
    var last := if window[s + n - 1].word == quote[n - 1] then {n - 1} else {};
    assert Agreeing(quote, window, s, n) == Agreeing(quote, window, s, n - 1) + last;
  }

  /** How many they are, counted position by position. */
  function Matches(quote: seq<string>, window: seq<Token>, s: nat, n: nat): (m: nat)
    requires n <= |quote| && s + n <= |window|
    ensures m == |Agreeing(quote, window, s, n)|
    ensures m <= n
    ensures m == n <==> forall k :: 0 <= k < n ==> window[s + k].word == quote[k]
  {
    if n == 0 then 0
    else
      AgreeingNext(quote, window, s, n);
      Matches(quote, window, s, n - 1) + if window[s + n - 1].word == quote[n - 1] then 1 else 0
  }

  function Score(quote: seq<string>, window: seq<Token>, s: nat): real
    requires quote != [] && s + |quote| <= |window|
  {
    Matches(quote, window, s, |quote|) as real / |quote| as real
  }

  /** Alignment `s` clears the threshold, no other alignment comes within the
      margin, and among equals it is the first. */
  ghost predicate Accepted(config: ProvenanceConfig, quote: seq<string>, window: seq<Token>, s: nat) {
    && quote != [] && s + |quote| <= |window|
    && Score(quote, window, s) >= config.threshold
    && forall r: nat :: r + |quote| <= |window| && r != s ==>
         && Score(quote, window, s) - Score(quote, window, r) >= config.margin
         && (Score(quote, window, r) < Score(quote, window, s)
           || (Score(quote, window, r) == Score(quote, window, s) && s < r))
  }

  predicate HigherScore(a: (real, nat), b: (real, nat)) { a.0 >= b.0 }

  method ScoreAlignments(quote: seq<string>, window: seq<Token>) returns (scored: seq<(real, nat)>)
    requires 0 < |quote| <= |window|
    ensures |scored| == |window| - |quote| + 1
    ensures forall s :: 0 <= s < |scored| ==> scored[s] == (Score(quote, window, s), s)
  {
    scored := [];
    for s := 0 to |window| - |quote| + 1
      invariant |scored| == s
      invariant forall r :: 0 <= r < s ==> scored[r] == (Score(quote, window, r), r)
    {
      var matches := 0;
      for k := 0 to |quote|
        invariant matches == Matches(quote, window, s, k)
      {
        if window[s + k].word == quote[k] { matches := matches + 1; }
      }
      scored := scored + [(matches as real / |quote| as real, s)];
    }
  }

  /** What sorting the scores best first puts in the first two places. */
  lemma RankedScores(scored: seq<(real, nat)>)
    requires scored != [] && forall s :: 0 <= s < |scored| ==> scored[s].1 == s
    ensures var ranked := Order.SortBy(scored, HigherScore);
      && |ranked| == |scored| && ranked[0] in scored
      && (forall s :: 0 <= s < |scored| && s != ranked[0].1 ==>
            && |scored| > 1 && ranked[1] in scored && ranked[1].1 != ranked[0].1
            && scored[s].0 <= ranked[1].0 <= ranked[0].0
            && (scored[s].0 < ranked[0].0 || ranked[0].1 < s))
  {
    Order.SortByCorrect(scored, HigherScore);
    var ranked := Order.SortBy(scored, HigherScore);
    assert ranked[0] in ranked;
    var at := Order.HeadIsFirst(scored, HigherScore);
    Order.SortedNoDuplicates(scored, HigherScore);
    forall s | 0 <= s < |scored| && s != ranked[0].1
      ensures |scored| > 1 && ranked[1] in scored && ranked[1].1 != ranked[0].1
      ensures scored[s].0 <= ranked[1].0 <= ranked[0].0
      ensures scored[s].0 < ranked[0].0 || ranked[0].1 < s
    {
      assert scored[s] in scored && scored[s] in ranked;
      var p :| 0 <= p < |ranked| && ranked[p] == scored[s];
      assert p != 0;
      assert ranked[1] in ranked && ranked[0] != ranked[1];
      assert p == 1 || HigherScore(ranked[1], ranked[p]);
      assert HigherScore(ranked[0], ranked[1]);
    }
  }

  /** `_fuzzy_match`, as the index of the accepted alignment. */
  method FuzzyMatch(quote: seq<string>, window: seq<Token>, config: ProvenanceConfig) returns (best: Option<nat>)
    ensures best.Some? ==> Accepted(config, quote, window, best.value)
    ensures best.None? ==> forall s: nat :: !Accepted(config, quote, window, s)
  {
    if |quote| == 0 || |quote| > |window| { return None; }
    var scored := ScoreAlignments(quote, window);
    var ranked := Order.SortBy(scored, HigherScore);
    RankedScores(scored);
    var (bestScore, bestStart) := ranked[0];
    assert forall s: nat :: s + |quote| <= |window| ==> scored[s] == (Score(quote, window, s), s);
    if bestScore < config.threshold {
      return None;
    }
    if |ranked| > 1 {
      var second := ranked[1];
      assert second.1 != bestStart by {
        var other := if bestStart == 0 then 1 else 0;
        assert other < |scored| && other != bestStart;
      }
      if bestScore - second.0 < config.margin {
        return None;
      }
    }
    return Some(bestStart);
  }

  // ----- resolve_quote -----

  function Words(tokens: seq<Token>): (ws: seq<string>)
    ensures |ws| == |tokens| && forall k :: 0 <= k < |tokens| ==> ws[k] == tokens[k].word
  {
    seq(|tokens|, k requires 0 <= k < |tokens| => tokens[k].word)
  }

  /** What the three tiers promise about a match of `quote` in `window`. */
  ghost predicate Resolves(config: ProvenanceConfig, quote: string, window: string, m: QuoteMatch) {
    var text, q := CanonText(window), CanonText(quote);
    if q == "" then m == FAILED
    else if FindFrom(text, q, 0) >= 0 then m == ExactMatch(window, q)
    else ResolvesFuzzily(config, quote, window, m)
  }

  ghost function ExactMatch(window: string, q: string): QuoteMatch
    requires q != "" && FindFrom(CanonText(window), q, 0) >= 0
  {
    var i := FindFrom(CanonText(window), q, 0);
    QuoteMatch(Exact, GlyphsOf(window)[i].at, GlyphsOf(window)[i + |q| - 1].at + 1,
               CountFrom(CanonText(window), q, 0) > 1)
  }

  ghost predicate ResolvesFuzzily(config: ProvenanceConfig, quote: string, window: string, m: QuoteMatch) {
    var qs, ws := Words(TokensFrom(CanonText(quote), 0)), TokensFrom(CanonText(window), 0);
    if m == FAILED then forall s: nat :: !Accepted(config, qs, ws, s)
    else exists s: nat :: Accepted(config, qs, ws, s) && FuzzySpan(window, ws, s, |qs|, m)
  }

  ghost predicate FuzzySpan(window: string, ws: seq<Token>, s: nat, n: nat, m: QuoteMatch) {
    && 0 < n && s + n <= |ws| && ws[s].start < |GlyphsOf(window)| && 0 < ws[s + n - 1].end <= |GlyphsOf(window)|
    && m == QuoteMatch(Fuzzy, GlyphsOf(window)[ws[s].start].at, GlyphsOf(window)[ws[s + n - 1].end - 1].at + 1, false)
  }

  lemma WindowTokens(window: string)
    ensures Spaced(CanonText(window), TokensFrom(CanonText(window), 0))
  {
    CanonIsCanonical(window);
    CanonicalTokens(CanonText(window), 0);
  }

  method ResolveQuote(config: ProvenanceConfig, quote: string, window: string) returns (m: QuoteMatch)
    ensures Resolves(config, quote, window, m)
  {
    hide GlyphsOf, ResolvesFuzzily, CountFrom, FindFrom;
    var text, offsets := CanonicalizeWithOffsets(window);
    var q, _ := CanonicalizeWithOffsets(quote);
    if q == "" { return FAILED; }
    var occurrences := CountFrom(text, q, 0);
    CountIffFound(text, q);
    if occurrences >= 1 {
      var i := FindFrom(text, q, 0);
      return QuoteMatch(Exact, offsets[i], offsets[i + |q| - 1] + 1, occurrences > 1);
    }
    m := ResolveFuzzily(config, quote, window, text, q, offsets);
  }

  /** Tier 2, after tier 1 has failed. */
  method ResolveFuzzily(config: ProvenanceConfig, ghost quote: string, ghost window: string, text: string, q: string,
                        offsets: seq<nat>) returns (m: QuoteMatch)
    requires text == CanonText(window) && q == CanonText(quote) && |offsets| == |text|
    requires forall k :: 0 <= k < |offsets| ==> offsets[k] == GlyphsOf(window)[k].at
    ensures ResolvesFuzzily(config, quote, window, m)
  {
    hide GlyphsOf, TokensFrom, Accepted;
    var ws := TokenizeWithSpans(text);
    var qTokens := TokenizeWithSpans(q);
    WindowTokens(window);
    var fuzzy := FuzzyMatch(Words(qTokens), ws, config);
    if fuzzy.None? { return FAILED; }
    var s, n := fuzzy.value, |qTokens|;
    AcceptedFits(config, Words(qTokens), ws, s);
    assert IsWord(text, ws[s]) && IsWord(text, ws[s + n - 1]);
    m := QuoteMatch(Fuzzy, offsets[ws[s].start], offsets[ws[s + n - 1].end - 1] + 1, false);
    assert FuzzySpan(window, ws, s, n, m);
  }

  lemma AcceptedFits(config: ProvenanceConfig, quote: seq<string>, window: seq<Token>, s: nat)
    requires Accepted(config, quote, window, s)
    ensures quote != [] && s + |quote| <= |window|
  {
  }

  // ----- what a match means -----

  /** Alignment `s` agrees with the quote in a share of at least `threshold` of
      its tokens, ahead of every other alignment by at least `margin` of them,
      and on equal terms comes first. */
  ghost predicate StandsOut(config: ProvenanceConfig, quote: seq<string>, window: seq<Token>, s: nat) {
    var n := |quote|;
    && 0 < n && s + n <= |window|
    && |Agreeing(quote, window, s, n)| as real >= config.threshold * n as real
    && forall r: nat :: r + n <= |window| && r != s ==> Ahead(config, quote, window, s, r)
  }

  predicate Ahead(config: ProvenanceConfig, quote: seq<string>, window: seq<Token>, s: nat, r: nat)
    requires s + |quote| <= |window| && r + |quote| <= |window|
  {
    var n := |quote|;
    var ahead := |Agreeing(quote, window, s, n)| - |Agreeing(quote, window, r, n)|;
    ahead as real >= config.margin * n as real && (ahead > 0 || (ahead == 0 && s < r))
  }

  lemma ShareIff(m: int, n: int, x: real)
    requires n > 0
    ensures m as real / n as real >= x <==> m as real >= x * n as real
  {
    var q, d := m as real / n as real, n as real;
    assert q * d == m as real;
    if q >= x { Scaled(x, q, d); }
    if q < x { assert q * d < x * d; }
  }

  lemma Scaled(x: real, y: real, d: real)
    requires x <= y && d > 0.0
    ensures x * d <= y * d
  {
  }

  lemma ShareOfDifference(a: int, b: int, n: int)
    requires n > 0
    ensures a as real / n as real - b as real / n as real == (a - b) as real / n as real
  {
  }

  lemma AheadIff(config: ProvenanceConfig, quote: seq<string>, window: seq<Token>, s: nat, r: nat)
    requires quote != [] && s + |quote| <= |window| && r + |quote| <= |window|
    ensures Ahead(config, quote, window, s, r) <==>
      && Score(quote, window, s) - Score(quote, window, r) >= config.margin
      && (Score(quote, window, r) < Score(quote, window, s)
        || (Score(quote, window, r) == Score(quote, window, s) && s < r))
  {
    hide Agreeing, Matches;
    var n := |quote|;
    var a: int, b: int := Matches(quote, window, s, n), Matches(quote, window, r, n);
    ShareOfDifference(a, b, n);
    ShareIff(a - b, n, config.margin);
    SharesCompare(a, b, n);
  }

  lemma AcceptedIff(config: ProvenanceConfig, quote: seq<string>, window: seq<Token>, s: nat)
    ensures Accepted(config, quote, window, s) <==> StandsOut(config, quote, window, s)
  {
    hide Agreeing, Matches, Ahead, Score;
    if quote != [] && s + |quote| <= |window| {
      ThresholdIff(config, quote, window, s);
      forall r: nat | r + |quote| <= |window|
        ensures Ahead(config, quote, window, s, r) <==>
          && Score(quote, window, s) - Score(quote, window, r) >= config.margin
          && (Score(quote, window, r) < Score(quote, window, s)
            || (Score(quote, window, r) == Score(quote, window, s) && s < r))
      {
        AheadIff(config, quote, window, s, r);
      }
    }
  }

  lemma ThresholdIff(config: ProvenanceConfig, quote: seq<string>, window: seq<Token>, s: nat)
    requires quote != [] && s + |quote| <= |window|
    ensures Score(quote, window, s) >= config.threshold <==>
      |Agreeing(quote, window, s, |quote|)| as real >= config.threshold * |quote| as real
  {
    hide Agreeing, Matches;
    ShareIff(Matches(quote, window, s, |quote|), |quote|, config.threshold);
  }

  lemma SharesCompare(a: int, b: int, n: int)
    requires n > 0
    ensures a as real / n as real > b as real / n as real <==> a > b
    ensures a as real / n as real == b as real / n as real <==> a == b
  {
    ShareIff(a, n, b as real / n as real);
    ShareIff(b, n, a as real / n as real);
  }

  /** Tier 2: FUZZY exactly when the canonical quote occurs nowhere in the window
      and an alignment of its tokens stands out; that alignment's span is returned. */
  lemma FuzzyIff(config: ProvenanceConfig, quote: string, window: string, m: QuoteMatch)
    requires Resolves(config, quote, window, m)
    ensures var text, q := CanonText(window), CanonText(quote);
      var qs, ws := Words(TokensFrom(q, 0)), TokensFrom(text, 0);
      && (m.tier == Fuzzy <==>
            && q != "" && (forall i: nat :: !OccursAt(text, q, i))
            && exists s: nat :: StandsOut(config, qs, ws, s))
      && (m.tier == Fuzzy ==> exists s: nat :: StandsOut(config, qs, ws, s) && FuzzySpan(window, ws, s, |qs|, m))
  {
    hide GlyphsOf, CanonText, TokensFrom, Accepted, StandsOut, FuzzySpan;
    ExactIffOccurs(config, quote, window, m);
    var qs, ws := Words(TokensFrom(CanonText(quote), 0)), TokensFrom(CanonText(window), 0);
    forall s: nat ensures Accepted(config, qs, ws, s) <==> StandsOut(config, qs, ws, s) {
      AcceptedIff(config, qs, ws, s);
    }
    if m.tier == Fuzzy {
      WhichTier(config, quote, window, m);
      var s := AcceptedAlignment(config, quote, window, m);
    } else if CanonText(quote) != "" && m.tier != Exact {
      NotFuzzy(config, quote, window, m);
    }
  }

  lemma NotFuzzy(config: ProvenanceConfig, quote: string, window: string, m: QuoteMatch)
    requires Resolves(config, quote, window, m) && CanonText(quote) != "" && m.tier == Failed
    ensures var qs, ws := Words(TokensFrom(CanonText(quote), 0)), TokensFrom(CanonText(window), 0);
      forall s: nat :: !Accepted(config, qs, ws, s)
  {
    hide GlyphsOf, CanonText, TokensFrom, Accepted;
  }

  /** Tier 1 succeeds exactly when the canonical quote is non-empty and occurs
      in the canonical window; the first occurrence is the one used. */
  lemma ExactIffOccurs(config: ProvenanceConfig, quote: string, window: string, m: QuoteMatch)
    requires Resolves(config, quote, window, m)
    ensures m.tier == Exact <==>
              CanonText(quote) != "" && exists i: nat :: OccursAt(CanonText(window), CanonText(quote), i)
    ensures CanonText(quote) == "" ==> m.tier == Failed
  {
  }

  /** Resolution is a function of its inputs. */
  lemma ResolutionIsUnique(config: ProvenanceConfig, quote: string, window: string, m: QuoteMatch, other: QuoteMatch)
    requires Resolves(config, quote, window, m) && Resolves(config, quote, window, other)
    ensures m == other
  {
    hide GlyphsOf, CanonText, TokensFrom, Score;
  }

  lemma WhichTier(config: ProvenanceConfig, quote: string, window: string, m: QuoteMatch)
    requires Resolves(config, quote, window, m)
    ensures m.tier == Exact ==>
              CanonText(quote) != "" && FindFrom(CanonText(window), CanonText(quote), 0) >= 0 &&
              m == ExactMatch(window, CanonText(quote))
    ensures m.tier == Fuzzy ==>
              CanonText(quote) != "" && FindFrom(CanonText(window), CanonText(quote), 0) < 0 &&
              ResolvesFuzzily(config, quote, window, m)
  {
    hide GlyphsOf, CanonText, TokensFrom, Accepted, FindFrom;
  }

  lemma AcceptedAlignment(config: ProvenanceConfig, quote: string, window: string, m: QuoteMatch) returns (s: nat)
    requires ResolvesFuzzily(config, quote, window, m) && m.tier == Fuzzy
    ensures var qs, ws := Words(TokensFrom(CanonText(quote), 0)), TokensFrom(CanonText(window), 0);
      Accepted(config, qs, ws, s) && FuzzySpan(window, ws, s, |qs|, m)
  {
    hide GlyphsOf, CanonText, TokensFrom, Accepted, FuzzySpan;
    var r: nat :| var qs, ws := Words(TokensFrom(CanonText(quote), 0)), TokensFrom(CanonText(window), 0);
      Accepted(config, qs, ws, r) && FuzzySpan(window, ws, r, |qs|, m);
    s := r;
  }

  /** The raw slice behind an occurrence of a canonical string. */
  lemma OccurrenceRoundTrip(window: string, q: string, i: nat) returns (pre: string, post: string)
    requires q != "" && q[0] != ' ' && q[|q| - 1] != ' ' && OccursAt(CanonText(window), q, i)
    ensures GlyphsOf(window)[i].at <= GlyphsOf(window)[i + |q| - 1].at < |window|
    ensures CanonText(window[GlyphsOf(window)[i].at..GlyphsOf(window)[i + |q| - 1].at + 1]) == pre + q + post
    ensures |pre| <= 2 && |post| <= 2 && forall c :: c in pre + post ==> c == '.'
    ensures pre != "" ==> IsEllipsis(window, GlyphsOf(window)[i].at) && q[0] == '.'
    ensures post != "" ==> IsEllipsis(window, GlyphsOf(window)[i + |q| - 1].at) && q[|q| - 1] == '.'
  {
    hide GlyphsOf;
    var text := CanonText(window);
    assert text[i] == q[0] && text[i + |q| - 1] == q[|q| - 1];
    var h, e := SliceOfMatch(window, i, i + |q|);
    pre, post := text[h..i], text[i + |q|..e];
    assert text[h..e] == pre + q + post;
  }

  /** Of several occurrences tier 1 uses the first. */
  lemma FirstOccurrenceUsed(config: ProvenanceConfig, quote: string, window: string, m: QuoteMatch, i: nat)
    requires Resolves(config, quote, window, m) && m.tier == Exact
    requires OccursAt(CanonText(window), CanonText(quote), i)
    ensures i < |GlyphsOf(window)| && m.start <= GlyphsOf(window)[i].at
    ensures exists j: nat ::
      j <= i && OccursAt(CanonText(window), CanonText(quote), j) && m.start == GlyphsOf(window)[j].at
  {
    hide GlyphsOf, Resolves, ResolvesFuzzily, CountFrom, FindFrom;
    WhichTier(config, quote, window, m);
    var j := FindFrom(CanonText(window), CanonText(quote), 0);
    OffsetsInOrder(window);
    assert j == i || j < i;
  }

  /** Tier 1 round trip: the raw slice it returns canonicalizes back to the
      canonical quote, with at most two dots on a side where the match split an ellipsis. */
  lemma ExactRoundTrip(config: ProvenanceConfig, quote: string, window: string, m: QuoteMatch)
    returns (pre: string, post: string)
    requires Resolves(config, quote, window, m) && m.tier == Exact
    ensures m.start < m.end <= |window|
    ensures CanonText(window[m.start..m.end]) == pre + CanonText(quote) + post
    ensures |pre| <= 2 && |post| <= 2 && forall c :: c in pre + post ==> c == '.'
    ensures CanonText(quote) != ""
    ensures pre != "" ==> IsEllipsis(window, m.start) && CanonText(quote)[0] == '.'
    ensures post != "" ==> IsEllipsis(window, m.end - 1) && CanonText(quote)[|CanonText(quote)| - 1] == '.'
  {
    hide GlyphsOf, Resolves, ResolvesFuzzily, CountFrom, FindFrom;
    WhichTier(config, quote, window, m);
    CanonIsCanonical(quote);
    pre, post := OccurrenceRoundTrip(window, CanonText(quote), FindFrom(CanonText(window), CanonText(quote), 0));
  }

  /** A quote that neither starts nor ends with a dot comes back exactly. */
  lemma ExactRoundTripWithoutDots(config: ProvenanceConfig, quote: string, window: string, m: QuoteMatch)
    requires Resolves(config, quote, window, m) && m.tier == Exact && CanonText(quote) != ""
    requires CanonText(quote)[0] != '.' && CanonText(quote)[|CanonText(quote)| - 1] != '.'
    ensures m.start < m.end <= |window| && CanonText(window[m.start..m.end]) == CanonText(quote)
  {
    hide GlyphsOf, Resolves;
    var pre, post := ExactRoundTrip(config, quote, window, m);
  }

  /** The flag on an exact match says that the quote occurs twice without overlap. */
  lemma AmbiguousMeansDisjoint(config: ProvenanceConfig, quote: string, window: string, m: QuoteMatch)
    requires Resolves(config, quote, window, m) && m.tier == Exact
    ensures m.ambiguous <==>
              exists i: nat, j: nat :: OccursAt(CanonText(window), CanonText(quote), i) &&
                OccursAt(CanonText(window), CanonText(quote), j) && i + |CanonText(quote)| <= j
  {
    CountSeesDisjointPairs(CanonText(window), CanonText(quote));
  }

  lemma {:induction false} JoinedTokens(text: string, ws: seq<Token>, s: nat, n: nat)
    requires Spaced(text, ws) && 0 < n && s + n <= |ws|
    ensures ws[s].start < ws[s + n - 1].end <= |text|
    ensures text[ws[s].start..ws[s + n - 1].end] == JoinWords(Words(ws[s..s + n]))
  {
    hide JoinWords, Spaced, Words;
    var z := ws[s + n - 1];
    WordInSpaced(text, ws, s);
    WordInSpaced(text, ws, s + n - 1);
    if n == 1 {
      OneWord(ws, s);
      JoinOne(ws[s].word);
    } else {
      var y := ws[s + n - 2];
      WordInSpaced(text, ws, s + n - 2);
      JoinedTokens(text, ws, s, n - 1);
      var front := Words(ws[s..s + (n - 1)]);
      WordsAppend(ws, s, n);
      JoinWordsAppend(front, z.word);
      SliceAcrossSpace(text, ws[s].start, y.end, z.end);
    }
  }

  lemma OneWord(ws: seq<Token>, s: nat)
    requires s < |ws|
    ensures Words(ws[s..s + 1]) == [ws[s].word]
  {
  }

  lemma WordsAppend(ws: seq<Token>, s: nat, n: nat)
    requires 1 < n && s + n <= |ws|
    ensures Words(ws[s..s + n]) == Words(ws[s..s + (n - 1)]) + [ws[s + n - 1].word]
  {
  }

  lemma SliceAcrossSpace(text: string, a: nat, b: nat, d: nat)
    requires a <= b < d <= |text| && text[b] == ' '
    ensures text[a..d] == text[a..b] + " " + text[b + 1..d]
  {
  }

  lemma JoinOne(w: string)
    ensures JoinWords([w]) == w
  {
  }

  lemma WordInSpaced(text: string, ws: seq<Token>, k: nat)
    requires Spaced(text, ws) && k < |ws|
    ensures IsWord(text, ws[k])
    ensures k > 0 ==> ws[k].start == ws[k - 1].end + 1
  {
  }

  /** A canonical text is its words joined by single spaces. */
  lemma CanonicalIsJoined(text: string)
    requires Canonical(text) && text != ""
    ensures TokensFrom(text, 0) != [] && Spaced(text, TokensFrom(text, 0))
    ensures text == JoinWords(Words(TokensFrom(text, 0)))
  {
    hide IsSpace, MapChar, TokensFrom;
    CanonicalTokens(text, 0);
    var ws := TokensFrom(text, 0);
    JoinedTokens(text, ws, 0, |ws|);
    assert ws[0..|ws|] == ws;
  }

  /** An alignment without a mismatch would have been an exact match. */
  lemma PerfectAlignmentOccurs(quote: string, window: string, s: nat)
    requires CanonText(quote) != ""
    requires var qs, ws := Words(TokensFrom(CanonText(quote), 0)), TokensFrom(CanonText(window), 0);
      s + |qs| <= |ws| && Matches(qs, ws, s, |qs|) == |qs|
    ensures exists i: nat :: OccursAt(CanonText(window), CanonText(quote), i)
  {
    hide GlyphsOf, TokensFrom, JoinWords, Canonical, Spaced;
    var text, q := CanonText(window), CanonText(quote);
    CanonIsCanonical(quote);
    CanonicalIsJoined(q);
    WindowTokens(window);
    var qs, ws := Words(TokensFrom(q, 0)), TokensFrom(text, 0);
    var n := |qs|;
    JoinedTokens(text, ws, s, n);
    assert Words(ws[s..s + n]) == qs;
    assert OccursAt(text, q, ws[s].start);
  }

  /** Tier 2 always pays for at least one mismatched token, so the threshold
      bounds the length of the quotes it can accept. */
  lemma FuzzyHasMismatch(config: ProvenanceConfig, quote: string, window: string, m: QuoteMatch)
    requires Resolves(config, quote, window, m) && m.tier == Fuzzy
    ensures |TokensFrom(CanonText(quote), 0)| as real * (1.0 - config.threshold) >= 1.0
    ensures config.threshold == DEFAULT_CONFIG.threshold ==> |TokensFrom(CanonText(quote), 0)| >= 20
  {
    hide GlyphsOf, TokensFrom, FindFrom, Resolves, ResolvesFuzzily, FuzzySpan;
    WhichTier(config, quote, window, m);
    var s := AcceptedAlignment(config, quote, window, m);
    var qs, ws := Words(TokensFrom(CanonText(quote), 0)), TokensFrom(CanonText(window), 0);
    AcceptedFits(config, qs, ws, s);
    var k := Matches(qs, ws, s, |qs|);
    if k == |qs| { PerfectAlignmentOccurs(quote, window, s); }
    ScoreBound(k, |qs|, config.threshold);
  }

  lemma ScoreBound(k: nat, n: nat, threshold: real)
    requires k < n && k as real / n as real >= threshold
    ensures n as real * (1.0 - threshold) >= 1.0
  {
    var ratio := k as real / n as real;
    assert ratio * n as real == k as real;
    assert ratio * n as real >= threshold * n as real;
  }

  lemma NothingSplit(window: string, lo: nat, hi: nat, h: nat, e: nat)
    requires Extent(window, lo, hi, h, e)
    requires lo == 0 || CanonText(window)[lo - 1] != '.'
    requires hi == |CanonText(window)| || CanonText(window)[hi] != '.'
    ensures h == lo && e == hi
  {
    hide GlyphsOf;
  }

  /** Where a run of window tokens lies in the canonical text: between spaces. */
  lemma RunOfTokens(window: string, ws: seq<Token>, s: nat, n: nat)
    requires Spaced(CanonText(window), ws) && 0 < n && s + n <= |ws|
    ensures var text, lo, hi := CanonText(window), ws[s].start, ws[s + n - 1].end;
      && lo < hi <= |text| && text[lo] != ' ' && text[hi - 1] != ' '
      && (lo == 0 || text[lo - 1] == ' ') && (hi == |text| || text[hi] == ' ')
      && text[lo..hi] == JoinWords(Words(ws[s..s + n]))
  {
    hide GlyphsOf, JoinWords, Spaced;
    JoinedTokens(CanonText(window), ws, s, n);
    WordInSpaced(CanonText(window), ws, s);
    WordInSpaced(CanonText(window), ws, s + n - 1);
  }

  /** The raw slice behind a run of window tokens canonicalizes to exactly those tokens. */
  lemma TokenRunRoundTrip(window: string, ws: seq<Token>, s: nat, n: nat, lo: nat, hi: nat)
    requires Spaced(CanonText(window), ws) && 0 < n && s + n <= |ws| && lo == ws[s].start && hi == ws[s + n - 1].end
    ensures lo < hi <= |GlyphsOf(window)|
    ensures GlyphsOf(window)[lo].at < GlyphsOf(window)[hi - 1].at + 1 <= |window|
    ensures CanonText(window[GlyphsOf(window)[lo].at..GlyphsOf(window)[hi - 1].at + 1])
      == JoinWords(Words(ws[s..s + n]))
  {
    hide GlyphsOf, JoinWords, Extent, Spaced;
    RunOfTokens(window, ws, s, n);
    var h, e := SliceOfMatch(window, lo, hi);
    NothingSplit(window, lo, hi, h, e);
  }

  /** Tier 2 returns the unique best alignment, and the raw slice behind it
      canonicalizes to exactly those window tokens. */
  lemma FuzzySliceIsItsTokens(config: ProvenanceConfig, quote: string, window: string, m: QuoteMatch) returns (s: nat)
    requires Resolves(config, quote, window, m) && m.tier == Fuzzy
    ensures var n, ws := |TokensFrom(CanonText(quote), 0)|, TokensFrom(CanonText(window), 0);
      && 0 < n && s + n <= |ws|
      && m.start < m.end <= |window|
      && CanonText(window[m.start..m.end]) == JoinWords(Words(ws[s..s + n]))
    ensures Accepted(config, Words(TokensFrom(CanonText(quote), 0)), TokensFrom(CanonText(window), 0), s)
  {
    hide GlyphsOf, CanonText, TokensFrom, Accepted, JoinWords, Resolves, ResolvesFuzzily, Spaced;
    WhichTier(config, quote, window, m);
    s := AcceptedAlignment(config, quote, window, m);
    var ws, n := TokensFrom(CanonText(window), 0), |TokensFrom(CanonText(quote), 0)|;
    WindowTokens(window);
    TokenRunRoundTrip(window, ws, s, n, ws[s].start, ws[s + n - 1].end);
  }

  /** Every accepted span is a non-empty stretch of the window. */
  lemma SpansAreNonEmpty(config: ProvenanceConfig, quote: string, window: string, m: QuoteMatch)
    requires Resolves(config, quote, window, m) && m.tier != Failed
    ensures m.start < m.end <= |window|
  {
    hide Resolves, GlyphsOf, Accepted, TokensFrom;
    if m.tier == Exact {
      var pre, post := ExactRoundTrip(config, quote, window, m);
    } else {
      var s := FuzzySliceIsItsTokens(config, quote, window, m);
    }
  }
}
