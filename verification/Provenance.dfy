/** The trust boundary between model output and the graph: a fact's quotes are
    resolved in its window and mapped to clipped spans of real chunks. */
module Provenance {
  import opened Schemas
  import opened Canon
  import opened Matching
  import opened Chunking
  import Order

  datatype Resolution =
    | Resolved(provenance: seq<Span>, matches: seq<QuoteMatch>)
    | Rejected(matches: seq<QuoteMatch>)

  function Clip(c: Chunk, start: nat, end: nat): Span
  {
    Span(c.id, Max(start, c.start), Min(end, c.end))
  }

  predicate Anchors(m: QuoteMatch, at: nat, c: Chunk, sp: Span) {
    m.tier != Failed && Overlaps(c, at + m.start, at + m.end) && sp == Clip(c, at + m.start, at + m.end)
  }

  /** `sp` is the part of some matched quote that lies in some chunk. */
  ghost predicate Anchored(matches: seq<QuoteMatch>, at: nat, chunks: seq<Chunk>, sp: Span) {
    exists i, c :: 0 <= i < |matches| && c in chunks && Anchors(matches[i], at, c, sp)
  }

  predicate UniqueIds(chunks: seq<Chunk>) {
    forall c, d :: c in chunks && d in chunks && c.id == d.id ==> c == d
  }

  // ----- the order of a provenance list -----

  predicate SpanLe(a: Span, b: Span) {
    if a.chunkId == b.chunkId then a.start <= b.start else Order.StrLe(a.chunkId, b.chunkId)
  }

  lemma SpanLeIsTotal()
    ensures Order.TotalPreorder(SpanLe)
  {
    forall x, y ensures SpanLe(x, y) || SpanLe(y, x) { Order.StrLeTotal(x.chunkId, y.chunkId); }
    forall x, y, z | SpanLe(x, y) && SpanLe(y, z) ensures SpanLe(x, z) { SpanLeTransitive(x, y, z); }
  }

  lemma SpanLeTransitive(x: Span, y: Span, z: Span)
    requires SpanLe(x, y) && SpanLe(y, z)
    ensures SpanLe(x, z)
  {
    Order.StrLeTotal(x.chunkId, x.chunkId);
    if x.chunkId != y.chunkId && y.chunkId != z.chunkId {
      Order.StrLeTransitive(x.chunkId, y.chunkId, z.chunkId);
      if x.chunkId == z.chunkId { Order.StrLeAntisymmetric(x.chunkId, y.chunkId); }
    }
  }

  /** Some listing of the set `s`, without repeats, in `(chunk_id, char_start)` order. */
  ghost predicate Arrangement(s: set<Span>, xs: seq<Span>) {
    Order.NoDuplicates(xs) && Order.Sorted(xs, SpanLe) && forall x :: x in xs <==> x in s
  }

  ghost predicate KeysDiffer(s: set<Span>) {
    forall a, b :: a in s && b in s && a.chunkId == b.chunkId && a.start == b.start ==> a == b
  }

  lemma TiedSpans(a: Span, b: Span)
    requires SpanLe(a, b) && SpanLe(b, a)
    ensures a.chunkId == b.chunkId && a.start == b.start
  {
    if a.chunkId != b.chunkId { Order.StrLeAntisymmetric(a.chunkId, b.chunkId); }
  }

  lemma ArrangementIsUnique(s: set<Span>, xs: seq<Span>, ys: seq<Span>)
    requires KeysDiffer(s) && Arrangement(s, xs) && Arrangement(s, ys)
    ensures xs == ys
  {
    SpanLeIsTotal();
    Order.SameMembersSameBag(xs, ys);
    forall a, b | a in xs && b in xs && SpanLe(a, b) && SpanLe(b, a) ensures a == b { TiedSpans(a, b); }
    Order.SortedIsUnique(xs, ys, SpanLe);
  }

  /** Exchanging two spans with the same key keeps the order but not the list. */
  lemma SwapTied(s: set<Span>, xs: seq<Span>, i: nat, j: nat) returns (ys: seq<Span>)
    requires Arrangement(s, xs) && i < j < |xs| && xs[i].chunkId == xs[j].chunkId && xs[i].start == xs[j].start
    ensures Arrangement(s, ys) && ys != xs
  {
    ys := xs[i := xs[j]][j := xs[i]];
    assert xs[i] != xs[j];
    forall k, m | 0 <= k < m < |ys| ensures SpanLe(ys[k], ys[m]) {
      SwappedOrder(xs, i, j, k, m);
    }
    forall x ensures x in ys <==> x in s {
      if x in xs {
        var k :| 0 <= k < |xs| && xs[k] == x;
        assert ys[if k == i then j else if k == j then i else k] == x;
      }
    }
  }

  lemma SwappedOrder(xs: seq<Span>, i: nat, j: nat, k: nat, m: nat)
    requires Order.Sorted(xs, SpanLe) && i < j < |xs| && k < m < |xs|
    requires xs[i].chunkId == xs[j].chunkId && xs[i].start == xs[j].start
    ensures SpanLe(xs[i := xs[j]][j := xs[i]][k], xs[i := xs[j]][j := xs[i]][m])
  {
    assert SpanLe(xs[k], xs[m]) && SpanLe(xs[i], xs[j]);
    Order.StrLeTotal(xs[i].chunkId, xs[i].chunkId);
  }

  /** `sorted(set_of_spans, key=(chunk_id, char_start))` is one list, whatever order
      the set is iterated in, exactly when no two of its spans share that key. */
  lemma SortedSetIsDeterministicIff(s: set<Span>, xs: seq<Span>)
    requires Arrangement(s, xs)
    ensures (forall ys :: Arrangement(s, ys) ==> ys == xs) <==> KeysDiffer(s)
  {
    if KeysDiffer(s) {
      forall ys | Arrangement(s, ys) ensures ys == xs { ArrangementIsUnique(s, ys, xs); }
    } else {
      var a, b :| a in s && b in s && a.chunkId == b.chunkId && a.start == b.start && a != b;
      var i :| 0 <= i < |xs| && xs[i] == a;
      var j :| 0 <= j < |xs| && xs[j] == b;
      var ys := SwapTied(s, xs, if i < j then i else j, if i < j then j else i);
    }
  }

  // ----- _resolve_fact -----

  function IdsOf(chunks: seq<Chunk>): seq<string> {
    if chunks == [] then [] else IdsOf(chunks[..|chunks| - 1]) + [chunks[|chunks| - 1].id]
  }

  lemma {:induction false} IdsMembers(chunks: seq<Chunk>, id: string)
    ensures id in IdsOf(chunks) <==> exists c :: c in chunks && c.id == id
  {
    if chunks != [] {
      IdsMembers(chunks[..|chunks| - 1], id);
      assert chunks == chunks[..|chunks| - 1] + [chunks[|chunks| - 1]];
    }
  }

  ghost predicate IndexedById(chunks: seq<Chunk>, byId: map<string, Chunk>) {
    && (forall c :: c in chunks ==> c.id in byId && byId[c.id] == c)
    && (forall id :: id in byId ==> byId[id] in chunks && byId[id].id == id)
  }

  /** `provenance_by_key[key] = ...`: a key is its span, so a repeat changes nothing. */
  function Add(values: seq<Span>, sp: Span): (more: seq<Span>)
    ensures forall x :: x in more <==> x in values || x == sp
    ensures Order.NoDuplicates(values) ==> Order.NoDuplicates(more)
  {
    if sp in values then values else values + [sp]
  }

  function Meets(start: nat, end: nat): Chunk -> bool { c => Overlaps(c, start, end) }

  /** The ids of the chunks a span meets, ascending. */
  function OverlapIds(start: nat, end: nat, chunks: seq<Chunk>): seq<string> {
    Order.SortBy(IdsOf(Filter(Meets(start, end), chunks)), Order.StrLe)
  }

  /** `sorted(chunks_overlapping_span(...))` */
  lemma OverlapIdsMembers(start: nat, end: nat, chunks: seq<Chunk>)
    ensures forall id :: id in OverlapIds(start, end, chunks) <==>
      exists c :: c in chunks && c.id == id && Overlaps(c, start, end)
  {
    hide Order.SortBy;
    var hits := Filter(Meets(start, end), chunks);
    Order.SortedStrings(IdsOf(hits));
    forall id ensures id in IdsOf(hits) <==> exists c :: c in chunks && c.id == id && Overlaps(c, start, end) {
      IdsMembers(hits, id);
      forall c ensures c in hits <==> c in chunks && Overlaps(c, start, end) {
        FilterMembers(Meets(start, end), chunks, c);
      }
    }
  }

  /** The spans so far and the clipped spans of these chunks, in this order. */
  function WithClips(values: seq<Span>, ids: seq<string>, byId: map<string, Chunk>, start: nat, end: nat): seq<Span> {
    if ids == [] then values
    else
      var before, id := WithClips(values, ids[..|ids| - 1], byId, start, end), ids[|ids| - 1];
      if id in byId then Add(before, Clip(byId[id], start, end)) else before
  }

  /** The keys of `provenance_by_key` in insertion order: quote by quote, and chunk by chunk in id order. */
  function SpansInOrder(matches: seq<QuoteMatch>, at: nat, chunks: seq<Chunk>, byId: map<string, Chunk>): seq<Span> {
    if matches == [] then []
    else
      var before, m := SpansInOrder(matches[..|matches| - 1], at, chunks, byId), matches[|matches| - 1];
      if m.tier == Failed then before
      else WithClips(before, OverlapIds(at + m.start, at + m.end, chunks), byId, at + m.start, at + m.end)
  }

  method AnchorMatch(m: QuoteMatch, at: nat, chunks: seq<Chunk>, byId: map<string, Chunk>, values0: seq<Span>)
    returns (values: seq<Span>)
    requires m.tier != Failed && IndexedById(chunks, byId)
    ensures values == WithClips(values0, OverlapIds(at + m.start, at + m.end, chunks), byId, at + m.start, at + m.end)
  {
    values := values0;
    var start, end := at + m.start, at + m.end;
    var ids := OverlapIds(start, end, chunks);
    OverlapIdsMembers(start, end, chunks);
    for k := 0 to |ids|
      invariant values == WithClips(values0, ids[..k], byId, start, end)
    {
      assert ids[k] in ids && ids[..k + 1][..k] == ids[..k];
      values := Add(values, Clip(byId[ids[k]], start, end));
    }
    assert ids[..|ids|] == ids;
  }

  lemma {:induction false} ClipsMembers(values: seq<Span>, ids: seq<string>, byId: map<string, Chunk>, start: nat,
                                        end: nat, sp: Span)
    ensures sp in WithClips(values, ids, byId, start, end) <==>
      sp in values || exists x :: 0 <= x < |ids| && ids[x] in byId && sp == Clip(byId[ids[x]], start, end)
    ensures Order.NoDuplicates(values) ==> Order.NoDuplicates(WithClips(values, ids, byId, start, end))
  {
    if ids != [] { ClipsMembers(values, ids[..|ids| - 1], byId, start, end, sp); }
  }

  lemma MatchSpans(m: QuoteMatch, at: nat, chunks: seq<Chunk>, byId: map<string, Chunk>, values: seq<Span>, sp: Span)
    requires m.tier != Failed && IndexedById(chunks, byId)
    ensures sp in WithClips(values, OverlapIds(at + m.start, at + m.end, chunks), byId, at + m.start, at + m.end) <==>
      sp in values || exists c :: c in chunks && Anchors(m, at, c, sp)
  {
    hide OverlapIds, WithClips;
    var start, end := at + m.start, at + m.end;
    var ids := OverlapIds(start, end, chunks);
    OverlapIdsMembers(start, end, chunks);
    ClipsMembers(values, ids, byId, start, end, sp);
    if c :| c in chunks && Anchors(m, at, c, sp) {
      assert c.id in ids;
      var x :| 0 <= x < |ids| && ids[x] == c.id;
      assert sp == Clip(byId[ids[x]], start, end);
    }
    if x :| 0 <= x < |ids| && ids[x] in byId && sp == Clip(byId[ids[x]], start, end) {
      assert ids[x] in ids;
      assert Anchors(m, at, byId[ids[x]], sp);
    }
  }

  /** The collected spans are exactly the anchored ones, each once. */
  lemma {:induction false} SpansAreAnchored(matches: seq<QuoteMatch>, at: nat, chunks: seq<Chunk>,
                                            byId: map<string, Chunk>, sp: Span)
    requires IndexedById(chunks, byId)
    ensures sp in SpansInOrder(matches, at, chunks, byId) <==> Anchored(matches, at, chunks, sp)
    ensures Order.NoDuplicates(SpansInOrder(matches, at, chunks, byId))
  {
    hide WithClips, OverlapIds, Anchored, IndexedById;
    if matches == [] {
      NothingAnchored(at, chunks, sp);
    } else {
      var last := |matches| - 1;
      SpansAreAnchored(matches[..last], at, chunks, byId, sp);
      assert matches[..last + 1] == matches;
      AnchoredNext(matches, at, chunks, sp, last);
      var m := matches[last];
      if m.tier != Failed {
        MatchSpans(m, at, chunks, byId, SpansInOrder(matches[..last], at, chunks, byId), sp);
        ClipsMembers(SpansInOrder(matches[..last], at, chunks, byId), OverlapIds(at + m.start, at + m.end, chunks),
                     byId,
                     at + m.start, at + m.end, sp);
      }
    }
  }

  lemma NothingAnchored(at: nat, chunks: seq<Chunk>, sp: Span)
    ensures !Anchored([], at, chunks, sp)
  {
  }

  /** `{chunk.chunk_id: chunk for chunk in chunks}` */
  function ById(chunks: seq<Chunk>): map<string, Chunk> {
    if chunks == [] then map[]
    else ById(chunks[..|chunks| - 1])[chunks[|chunks| - 1].id := chunks[|chunks| - 1]]
  }

  lemma {:induction false} ByIdIndexes(chunks: seq<Chunk>)
    requires UniqueIds(chunks)
    ensures IndexedById(chunks, ById(chunks))
  {
    if chunks != [] {
      var front, last := chunks[..|chunks| - 1], chunks[|chunks| - 1];
      assert chunks == front + [last];
      ByIdIndexes(front);
    }
  }

  /** The verdict on one fact: resolved iff some quote reaches a chunk, with
      exactly the clipped spans of its matches as provenance, stably sorted from
      the order in which they were met. */
  ghost predicate ResolutionOf(config: ProvenanceConfig, quotes: seq<string>, window: string, at: nat,
                               chunks: seq<Chunk>, r: Resolution)
  {
    && |r.matches| == |quotes|
    && (forall i :: 0 <= i < |quotes| ==> Resolves(config, quotes[i], window, r.matches[i]))
    && (r.Rejected? ==> forall sp :: !Anchored(r.matches, at, chunks, sp))
    && (r.Resolved? ==>
          && r.provenance != [] && Order.NoDuplicates(r.provenance) && Order.Sorted(r.provenance, SpanLe)
          && (forall sp :: sp in r.provenance <==> Anchored(r.matches, at, chunks, sp))
          && r.provenance == Order.SortBy(SpansInOrder(r.matches, at, chunks, ById(chunks)), SpanLe))
  }

  /** `_resolve_fact` */
  method ResolveFact(config: ProvenanceConfig, quotes: seq<string>, window: string, at: nat, chunks: seq<Chunk>,
                     byId: map<string, Chunk>) returns (r: Resolution)
    requires IndexedById(chunks, byId) && byId == ById(chunks)
    ensures ResolutionOf(config, quotes, window, at, chunks, r)
  {
    hide Resolves, SpansInOrder, Order.SortBy, Anchored, IndexedById;
    var matches: seq<QuoteMatch> := [];
    for i := 0 to |quotes|
      invariant |matches| == i && forall k :: 0 <= k < i ==> Resolves(config, quotes[k], window, matches[k])
    {
      var m := ResolveQuote(config, quotes[i], window);
      matches := matches + [m];
    }
    var values := CollectProvenance(matches, at, chunks, byId);
    r := if values == [] then Rejected(matches) else Resolved(Order.SortBy(values, SpanLe), matches);
    MatchesResolve(config, quotes, window, at, chunks, matches);
  }

  function OutcomeOf(matches: seq<QuoteMatch>, at: nat, chunks: seq<Chunk>): Resolution {
    var values := SpansInOrder(matches, at, chunks, ById(chunks));
    if values == [] then Rejected(matches) else Resolved(Order.SortBy(values, SpanLe), matches)
  }

  lemma MatchesResolve(config: ProvenanceConfig, quotes: seq<string>, window: string, at: nat, chunks: seq<Chunk>,
                       matches: seq<QuoteMatch>)
    requires IndexedById(chunks, ById(chunks)) && |matches| == |quotes|
    requires forall i :: 0 <= i < |quotes| ==> Resolves(config, quotes[i], window, matches[i])
    ensures ResolutionOf(config, quotes, window, at, chunks, OutcomeOf(matches, at, chunks))
  {
    hide Resolves, SpansInOrder, Order.SortBy, Anchored, IndexedById;
    var values := SpansInOrder(matches, at, chunks, ById(chunks));
    forall sp ensures sp in values <==> Anchored(matches, at, chunks, sp) {
      SpansAreAnchored(matches, at, chunks, ById(chunks), sp);
    }
    SpansAreAnchored(matches, at, chunks, ById(chunks), Span("", 0, 0));
    SpanLeIsTotal();
    Order.SortByCorrect(values, SpanLe);
    Order.SortedNoDuplicates(values, SpanLe);
    if values == [] { assert forall sp :: sp !in values; }
  }

  method CollectProvenance(matches: seq<QuoteMatch>, at: nat, chunks: seq<Chunk>, byId: map<string, Chunk>)
    returns (values: seq<Span>)
    requires IndexedById(chunks, byId)
    ensures values == SpansInOrder(matches, at, chunks, byId)
  {
    hide WithClips, OverlapIds;
    values := [];
    for i := 0 to |matches|
      invariant values == SpansInOrder(matches[..i], at, chunks, byId)
    {
      assert matches[..i + 1][..i] == matches[..i];
      if matches[i].tier != Failed {
        values := AnchorMatch(matches[i], at, chunks, byId, values);
      }
    }
    assert matches[..|matches|] == matches;
  }

  /** Resolution is a function of its inputs: the list of spans, and so the first
      of them that anchors an event, is fixed even where spans share chunk and start. */
  lemma FactResolutionIsUnique(config: ProvenanceConfig, quotes: seq<string>, window: string, at: nat,
                               chunks: seq<Chunk>, r: Resolution, q: Resolution)
    requires ResolutionOf(config, quotes, window, at, chunks, r) && ResolutionOf(config, quotes, window, at, chunks, q)
    ensures r == q
  {
    hide Resolves, SpansInOrder, Order.SortBy, Anchored;
    forall i | 0 <= i < |quotes| ensures r.matches[i] == q.matches[i] {
      ResolutionIsUnique(config, quotes[i], window, r.matches[i], q.matches[i]);
    }
    assert r.matches == q.matches;
    if r.Resolved? { assert r.provenance[0] in r.provenance; }
    if q.Resolved? { assert q.provenance[0] in q.provenance; }
  }

  lemma AnchoredNext(matches: seq<QuoteMatch>, at: nat, chunks: seq<Chunk>, sp: Span, i: nat)
    requires i < |matches|
    ensures Anchored(matches[..i + 1], at, chunks, sp) <==>
              Anchored(matches[..i], at, chunks, sp) || exists c :: c in chunks && Anchors(matches[i], at, c, sp)
  {
    hide Anchors;
    if c :| c in chunks && Anchors(matches[i], at, c, sp) { assert Anchors(matches[..i + 1][i], at, c, sp); }
    if k, c :| 0 <= k < i && c in chunks && Anchors(matches[..i][k], at, c, sp) {
      assert Anchors(matches[..i + 1][k], at, c, sp);
    }
    var head := matches[..i + 1];
    if k, c :| 0 <= k < |head| && c in chunks && Anchors(head[k], at, c, sp) {
      if k < i { assert Anchors(matches[..i][k], at, c, sp); }
    }
  }

  // ----- spans that share their key -----

  lemma ExactPrefix(config: ProvenanceConfig, quote: string, window: string)
    requires Canonical(quote) && Canonical(window) && quote != "" && OccursAt(window, quote, 0)
    ensures Resolves(config, quote, window, QuoteMatch(Exact, 0, |quote|, CountFrom(window, quote, 0) > 1))
  {
    CanonicalIsFixed(quote);
    CanonicalIsFixed(window);
  }

  const SMALL := Chunk("c", "ab", 0, 2)

  function SpanSet(xs: seq<Span>): set<Span> { set sp | sp in xs }

  /** Two quotes of one fact that start together, `a` and `ab`, give two spans of
      one chunk with one start: the set of its spans has two sorted listings. */
  lemma SharedStart(config: ProvenanceConfig) returns (r: Resolution, other: seq<Span>)
    ensures ResolutionOf(config, ["a", "ab"], "ab", 0, [SMALL], r) && r.Resolved? && !KeysDiffer(SpanSet(r.provenance))
    ensures Arrangement(SpanSet(r.provenance), r.provenance)
    ensures Arrangement(SpanSet(r.provenance), other) && other != r.provenance
  {
    hide ResolutionOf, OutcomeOf, Arrangement, KeysDiffer, Anchored, SpanSet, Resolves;
    var matches := SharedMatches(config);
    ByIdIndexes([SMALL]);
    r := OutcomeOf(matches, 0, [SMALL]);
    MatchesResolve(config, ["a", "ab"], "ab", 0, [SMALL], matches);
    OutcomeKeepsMatches(matches, 0, [SMALL]);
    AnchoredAreListed(config, ["a", "ab"], "ab", 0, [SMALL], r, Span("c", 0, 1));
    AnchoredAreListed(config, ["a", "ab"], "ab", 0, [SMALL], r, Span("c", 0, 2));
    other := TwoListings(r.provenance, Span("c", 0, 1), Span("c", 0, 2));
  }

  lemma TwoListings(xs: seq<Span>, a: Span, b: Span) returns (other: seq<Span>)
    requires Arrangement(SpanSet(xs), xs) && a in xs && b in xs
    requires a != b && a.chunkId == b.chunkId && a.start == b.start
    ensures !KeysDiffer(SpanSet(xs)) && Arrangement(SpanSet(xs), other) && other != xs
  {
    hide Arrangement;
    assert a in SpanSet(xs) && b in SpanSet(xs);
    SortedSetIsDeterministicIff(SpanSet(xs), xs);
    other :| Arrangement(SpanSet(xs), other) && other != xs;
  }

  lemma SharedMatches(config: ProvenanceConfig) returns (ms: seq<QuoteMatch>)
    ensures |ms| == 2 && Resolves(config, "a", "ab", ms[0]) && Resolves(config, "ab", "ab", ms[1])
    ensures Anchored(ms, 0, [SMALL], Span("c", 0, 1)) && Anchored(ms, 0, [SMALL], Span("c", 0, 2))
  {
    hide GlyphsOf, Resolves, CountFrom;
    assert Canonical("a") && Canonical("ab") && OccursAt("ab", "a", 0) && OccursAt("ab", "ab", 0);
    ExactPrefix(config, "a", "ab");
    ExactPrefix(config, "ab", "ab");
    ms := [QuoteMatch(Exact, 0, 1, CountFrom("ab", "a", 0) > 1), QuoteMatch(Exact, 0, 2, CountFrom("ab", "ab", 0) > 1)];
    assert SMALL in [SMALL];
    assert Anchors(ms[0], 0, SMALL, Span("c", 0, 1)) && Anchors(ms[1], 0, SMALL, Span("c", 0, 2));
  }

  lemma AnchoredAreListed(config: ProvenanceConfig, quotes: seq<string>, window: string, at: nat, chunks: seq<Chunk>,
                          r: Resolution, sp: Span)
    requires ResolutionOf(config, quotes, window, at, chunks, r) && Anchored(r.matches, at, chunks, sp)
    ensures r.Resolved? && sp in r.provenance && Arrangement(SpanSet(r.provenance), r.provenance)
  {
    hide Resolves, Anchored, SpansInOrder, Order.SortBy;
  }

  lemma OutcomeKeepsMatches(matches: seq<QuoteMatch>, at: nat, chunks: seq<Chunk>)
    ensures OutcomeOf(matches, at, chunks).matches == matches
  {
  }

  // ----- the trust boundary -----

  /** A window of `text` and the chunks of the same text. */
  ghost predicate SameText(ck: Chunker, text: string, window: string, at: nat, chunks: seq<Chunk>) {
    ValidChunker(ck) && Chunked(ck, text, chunks) && at + |window| <= |text| && window == text[at..at + |window|]
  }

  ghost predicate Matched(matches: seq<QuoteMatch>, at: nat, p: nat) {
    exists i :: 0 <= i < |matches| && matches[i].tier != Failed && at + matches[i].start <= p < at + matches[i].end
  }

  /** Every anchored span is a non-empty part of its own chunk. */
  lemma AnchoredSpanIsInChunk(ck: Chunker, text: string, window: string, at: nat, chunks: seq<Chunk>,
                              matches: seq<QuoteMatch>, sp: Span)
    requires SameText(ck, text, window, at, chunks) && Anchored(matches, at, chunks, sp)
    requires forall i :: 0 <= i < |matches| && matches[i].tier != Failed ==> matches[i].start < matches[i].end
    ensures exists c :: c in chunks && c.id == sp.chunkId && c.start <= sp.start < sp.end <= c.end
    ensures forall p: nat :: sp.start <= p < sp.end ==> Matched(matches, at, p)
  {
    var i, c :| 0 <= i < |matches| && c in chunks && Anchors(matches[i], at, c, sp);
    var k :| 0 <= k < |chunks| && chunks[k] == c;
    assert IsChunk(ck, text, chunks[k]);
  }

  /** Every matched character lies in an anchored span. */
  lemma MatchedIsAnchored(ck: Chunker, text: string, window: string, at: nat, chunks: seq<Chunk>,
                          matches: seq<QuoteMatch>, p: nat)
    requires SameText(ck, text, window, at, chunks) && Matched(matches, at, p)
    requires forall i :: 0 <= i < |matches| && matches[i].tier != Failed ==> matches[i].end <= |window|
    ensures exists sp :: Anchored(matches, at, chunks, sp) && sp.start <= p < sp.end
  {
    var i :| 0 <= i < |matches| && matches[i].tier != Failed && at + matches[i].start <= p < at + matches[i].end;
    var c := EveryPositionIsChunked(ck, text, chunks, p);
    var sp := Clip(chunks[c], at + matches[i].start, at + matches[i].end);
    assert chunks[c] in chunks && Anchors(matches[i], at, chunks[c], sp);
  }

  /** Trust boundary: over the chunks of the same text, a fact is rejected iff
      every quote failed; its spans are non-empty, each inside its chunk, and
      together cover exactly the matched characters. */
  lemma TrustBoundary(config: ProvenanceConfig, quotes: seq<string>, ck: Chunker, text: string, window: string, at: nat,
                      chunks: seq<Chunk>, r: Resolution)
    requires SameText(ck, text, window, at, chunks)
    requires ResolutionOf(config, quotes, window, at, chunks, r)
    ensures r.Rejected? <==> forall i :: 0 <= i < |quotes| ==> r.matches[i].tier == Failed
    ensures r.Resolved? ==> forall sp :: sp in r.provenance ==>
              exists c :: c in chunks && c.id == sp.chunkId && c.start <= sp.start < sp.end <= c.end
    ensures r.Resolved? ==> forall p: nat ::
              (exists sp :: sp in r.provenance && sp.start <= p < sp.end) <==> Matched(r.matches, at, p)
  {
    hide Resolves, Anchored, Matched, SameText, SpansInOrder, Order.SortBy;
    forall i | 0 <= i < |quotes| && r.matches[i].tier != Failed
      ensures r.matches[i].start < r.matches[i].end <= |window|
      ensures Matched(r.matches, at, at + r.matches[i].start)
    {
      SpansAreNonEmpty(config, quotes[i], window, r.matches[i]);
      MatchCoversItsStart(r.matches, at, i);
    }
    forall p: nat | Matched(r.matches, at, p)
      ensures exists sp :: Anchored(r.matches, at, chunks, sp) && sp.start <= p < sp.end
    {
      MatchedIsAnchored(ck, text, window, at, chunks, r.matches, p);
    }
    forall sp | Anchored(r.matches, at, chunks, sp)
      ensures exists c :: c in chunks && c.id == sp.chunkId && c.start <= sp.start < sp.end <= c.end
      ensures forall p: nat :: sp.start <= p < sp.end ==> Matched(r.matches, at, p)
    {
      AnchoredSpanIsInChunk(ck, text, window, at, chunks, r.matches, sp);
    }
    if r.Resolved? {
      assert r.provenance[0] in r.provenance;
      AnchoredHasMatch(r.matches, at, chunks, r.provenance[0]);
    }
  }

  lemma MatchCoversItsStart(matches: seq<QuoteMatch>, at: nat, i: nat)
    requires i < |matches| && matches[i].tier != Failed && matches[i].start < matches[i].end
    ensures Matched(matches, at, at + matches[i].start)
  {
  }

  lemma AnchoredHasMatch(matches: seq<QuoteMatch>, at: nat, chunks: seq<Chunk>, sp: Span)
    requires Anchored(matches, at, chunks, sp)
    ensures exists i :: 0 <= i < |matches| && matches[i].tier != Failed
  {
  }

  // ----- resolve_window_provenance -----

  /** The content hash of `_make_chunk_id`, taken to be injective. */
  ghost predicate InjectiveIds(ck: Chunker) {
    forall a, b, s, c, d, t :: ck.id(a, b, s) == ck.id(c, d, t) ==> a == c && b == d && s == t
  }

  lemma ChunkIdsAreUnique(ck: Chunker, text: string, chunks: seq<Chunk>)
    requires Chunked(ck, text, chunks) && InjectiveIds(ck)
    ensures UniqueIds(chunks)
  {
    forall c, d | c in chunks && d in chunks && c.id == d.id ensures c == d {
      var i :| 0 <= i < |chunks| && chunks[i] == c;
      var j :| 0 <= j < |chunks| && chunks[j] == d;
      assert IsChunk(ck, text, chunks[i]) && IsChunk(ck, text, chunks[j]);
    }
  }

  /** One list of raw facts (entities, relations or events) of a window, split
      into resolved and rejected with nothing lost and the order kept. */
  method ResolveWindow(config: ProvenanceConfig, facts: seq<seq<string>>, window: string, at: nat, chunks: seq<Chunk>)
    returns (r: Result<seq<Resolution>>)
    requires UniqueIds(chunks)
    ensures r.Raised? <==> chunks == []
    ensures r.Ok? ==> |r.value| == |facts|
    ensures r.Ok? ==> forall i :: 0 <= i < |facts| ==> ResolutionOf(config, facts[i], window, at, chunks, r.value[i])
  {
    hide Resolves, Anchored;
    if chunks == [] { return Raised; }
    var byId := ById(chunks);
    ByIdIndexes(chunks);
    var results: seq<Resolution> := [];
    for i := 0 to |facts|
      invariant |results| == i
      invariant forall k :: 0 <= k < i ==> ResolutionOf(config, facts[k], window, at, chunks, results[k])
    {
      var one := ResolveFact(config, facts[i], window, at, chunks, byId);
      results := results + [one];
    }
    return Ok(results);
  }
}
