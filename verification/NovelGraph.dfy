/** The whole construction for one novel (`build_graph_for_novel`) and the index
    that serves it (`GraphIndex`). */
module NovelGraph {
  import opened Schemas
  import opened Chunking
  import opened Matching
  import opened Provenance
  import opened EntityGraphs
  import opened Construction
  import opened Records
  import Segmentation
  import Merge
  import Partition
  import EntityResolution
  import Traversal
  import Order

  /** A raw fact with its evidence quotes. */
  datatype Quoted<R> = Quoted(raw: R, quotes: seq<string>)

  datatype RawMention = RawMention(name: string, aliases: seq<string>, localId: string, kind: string)

  datatype Extraction = Extraction(entities: seq<Quoted<RawMention>>, relations: seq<Quoted<RawRelation>>,
                                   events: seq<Quoted<RawEvent>>)

  /** A non-empty part of a known chunk. */
  ghost predicate Grounded(chunks: seq<Chunk>, sp: Span) {
    exists c :: c in chunks && c.id == sp.chunkId && c.start <= sp.start < sp.end <= c.end
  }

  ghost predicate AllGrounded(chunks: seq<Chunk>, spans: seq<Span>) {
    spans != [] && forall sp :: sp in spans ==> Grounded(chunks, sp)
  }

  ghost predicate FactsGrounded<R(!new)>(chunks: seq<Chunk>, facts: seq<Fact<R>>) {
    forall f :: f in facts ==> AllGrounded(chunks, f.provenance)
  }

  function QuotesOf<R>(facts: seq<Quoted<R>>): seq<seq<string>> {
    seq(|facts|, i requires 0 <= i < |facts| => facts[i].quotes)
  }

  /** The resolved facts of one window, in order. */
  function Kept<R>(facts: seq<Quoted<R>>, outcomes: seq<Resolution>, w: Segmentation.ExtractionWindow): seq<Fact<R>>
    requires |facts| == |outcomes|
  {
    if facts == [] then []
    else
      var n := |facts| - 1;
      Kept(facts[..n], outcomes[..n], w) +
        if outcomes[n].Resolved? then [Fact(facts[n].raw, w.chapter, w.window, outcomes[n].provenance)] else []
  }

  lemma {:induction false} KeptIsGrounded<R(!new)>(chunks: seq<Chunk>, facts: seq<Quoted<R>>, outcomes: seq<Resolution>,
                                                   w: Segmentation.ExtractionWindow)
    requires |facts| == |outcomes|
    requires forall i :: 0 <= i < |outcomes| && outcomes[i].Resolved? ==> AllGrounded(chunks, outcomes[i].provenance)
    ensures FactsGrounded(chunks, Kept(facts, outcomes, w))
  {
    hide AllGrounded;
    if facts != [] {
      var n := |facts| - 1;
      KeptIsGrounded(chunks, facts[..n], outcomes[..n], w);
    }
  }

  ghost predicate OfText(ck: Chunker, text: string, chunks: seq<Chunk>) {
    ValidChunker(ck) && Chunked(ck, text, chunks)
  }

  /** `out` holds the facts of a window whose quotes reach a chunk, with their resolved spans. */
  ghost predicate WindowFacts<R>(config: ProvenanceConfig, facts: seq<Quoted<R>>, w: Segmentation.ExtractionWindow,
                                 window: string, chunks: seq<Chunk>, out: seq<Fact<R>>)
  {
    exists outcomes: seq<Resolution> ::
      && |outcomes| == |facts|
      && (forall i :: 0 <= i < |facts| ==> ResolutionOf(config, facts[i].quotes, window, w.start, chunks, outcomes[i]))
      && out == Kept(facts, outcomes, w)
  }

  /** One kind of fact of one window through the trust boundary. */
  method ResolveFacts<R(!new)>(config: ProvenanceConfig, facts: seq<Quoted<R>>, w: Segmentation.ExtractionWindow,
                               window: string, chunks: seq<Chunk>, ghost ck: Chunker, ghost text: string)
    returns (r: Result<seq<Fact<R>>>)
    requires UniqueIds(chunks) && OfText(ck, text, chunks) && SameText(ck, text, window, w.start, chunks)
    ensures r.Raised? <==> chunks == []
    ensures r.Ok? ==> FactsGrounded(chunks, r.value) && WindowFacts(config, facts, w, window, chunks, r.value)
  {
    hide UniqueIds, OfText, SameText, ResolutionOf, FactsGrounded, AllGrounded;
    var outcomes := ResolveWindow(config, QuotesOf(facts), window, w.start, chunks);
    if outcomes.Raised? { return Raised; }
    forall i | 0 <= i < |facts| && outcomes.value[i].Resolved?
      ensures AllGrounded(chunks, outcomes.value[i].provenance)
    {
      OutcomeIsGrounded(config, facts[i].quotes, ck, text, window, w.start, chunks, outcomes.value[i]);
    }
    KeptIsGrounded(chunks, facts, outcomes.value, w);
    r := Ok(Kept(facts, outcomes.value, w));
  }

  lemma OutcomeIsGrounded(config: ProvenanceConfig, quotes: seq<string>, ck: Chunker, text: string, window: string,
                          at: nat, chunks: seq<Chunk>, r: Resolution)
    requires SameText(ck, text, window, at, chunks) && ResolutionOf(config, quotes, window, at, chunks, r)
      && r.Resolved?
    ensures AllGrounded(chunks, r.provenance)
  {
    hide SameText;
    TrustBoundary(config, quotes, ck, text, window, at, chunks, r);
  }

  /** An entity fact as the merge policy sees it. */
  function AsMention(f: Fact<RawMention>): Merge.Mention {
    Merge.Mention(f.raw.name, f.raw.aliases, f.chapter, f.window, f.raw.localId, f.raw.kind, f.provenance)
  }

  function AsMentions(facts: seq<Fact<RawMention>>): seq<Merge.Mention> {
    seq(|facts|, i requires 0 <= i < |facts| => AsMention(facts[i]))
  }

  /** Everything the pipeline is given besides the text and its chunks. */
  datatype Setup = Setup(
    tokenizer: Segmentation.Tokenizer, patterns: seq<string -> seq<nat>>, config: ProvenanceConfig,
    lexicon: Merge.Lexicon, sortKey: Merge.Mention -> nat, entityId: (string, string) -> string, eventId: EventHash,
    lower: string -> string, extract: (string, nat, Option<nat>) -> Result<Extraction>)

  ghost predicate ValidSetup(s: Setup, text: string) {
    Segmentation.Lossless(s.tokenizer) && forall p :: p in s.patterns ==> Segmentation.AreHeadings(text, p(text))
  }

  datatype Collected = Collected(entities: seq<Fact<RawMention>>, relations: seq<Fact<RawRelation>>,
                                 events: seq<Fact<RawEvent>>)

  ghost predicate CollectedGrounded(chunks: seq<Chunk>, c: Collected) {
    FactsGrounded(chunks, c.entities) && FactsGrounded(chunks, c.relations) && FactsGrounded(chunks, c.events)
  }

  /** What one window adds: nothing when its extraction failed. */
  ghost predicate WindowAdds(s: Setup, text: string, chunks: seq<Chunk>, w: Segmentation.ExtractionWindow,
                             before: Collected, after: Collected)
    requires w.start < w.end <= |text|
  {
    var window := text[w.start..w.end];
    var extraction := s.extract(window, w.chapter, w.window);
    if extraction.Raised? then after == before
    else exists es, rs, vs ::
      && WindowFacts(s.config, extraction.value.entities, w, window, chunks, es)
      && WindowFacts(s.config, extraction.value.relations, w, window, chunks, rs)
      && WindowFacts(s.config, extraction.value.events, w, window, chunks, vs)
      && after == Collected(before.entities + es, before.relations + rs, before.events + vs)
  }

  /** The facts of all windows, window by window. */
  ghost predicate Gathered(s: Setup, text: string, chunks: seq<Chunk>, ws: seq<Segmentation.ExtractionWindow>,
                           facts: Collected) {
    if ws == [] then facts == Collected([], [], [])
    else
      var last := ws[|ws| - 1];
      last.start < last.end <= |text| &&
        exists before ::
          Gathered(s, text, chunks, ws[..|ws| - 1], before) && WindowAdds(s, text, chunks, last, before, facts)
  }

  method AddWindow(s: Setup, text: string, chunks: seq<Chunk>, w: Segmentation.ExtractionWindow, before: Collected,
                   ghost ck: Chunker) returns (r: Result<Collected>)
    requires w.start < w.end <= |text| && UniqueIds(chunks) && OfText(ck, text, chunks)
    requires CollectedGrounded(chunks, before)
    ensures r.Raised? ==> chunks == []
    ensures r.Ok? ==> CollectedGrounded(chunks, r.value)
    ensures r.Ok? ==> WindowAdds(s, text, chunks, w, before, r.value)
  {
    hide UniqueIds, AllGrounded, WindowFacts;
    var window := text[w.start..w.end];
    var extraction := s.extract(window, w.chapter, w.window);
    if extraction.Raised? { return Ok(before); }
    assert SameText(ck, text, window, w.start, chunks);
    hide SameText, OfText;
    var entities := ResolveFacts(s.config, extraction.value.entities, w, window, chunks, ck, text);
    if entities.Raised? { return Raised; }
    var relations := ResolveFacts(s.config, extraction.value.relations, w, window, chunks, ck, text);
    var events := ResolveFacts(s.config, extraction.value.events, w, window, chunks, ck, text);
    r := Ok(Collected(before.entities + entities.value, before.relations + relations.value,
                      before.events + events.value));
  }

  datatype ConstructedGraph = ConstructedGraph(
    entities: seq<Entity>, relations: seq<Relation>, events: seq<Event>, participations: seq<Participation>,
    rejectedRelations: seq<Rejection<RawRelation>>, rejectedEvents: seq<Rejection<RawEvent>>)

  /** Integrity of the constructed content: real spans, known endpoints, no
      self-relation, and participations of known entities in known events. */
  ghost predicate Sound(chunks: seq<Chunk>, c: ConstructedGraph) {
    && (forall e :: e in c.entities ==> AllGrounded(chunks, e.provenance))
    && (forall r :: r in c.relations ==> SoundRelation(chunks, c.entities, r))
    && (forall v :: v in c.events ==> AllGrounded(chunks, v.provenance))
    && (forall p :: p in c.participations ==> SoundParticipation(chunks, c.entities, c.events, p))
  }

  ghost predicate SoundParticipation(chunks: seq<Chunk>, entities: seq<Entity>, events: seq<Event>, p: Participation) {
    && (exists e :: e in entities && e.id == p.entity)
    && (exists v :: v in events && v.id == p.event && forall sp :: sp in p.provenance ==> sp in v.provenance)
    && AllGrounded(chunks, p.provenance) && p.weight == |ChunkIds(p.provenance)| >= 1
  }

  ghost predicate SoundRelation(chunks: seq<Chunk>, entities: seq<Entity>, r: Relation) {
    && r.subject != r.obj && EndpointsKnown(entities, r)
    && AllGrounded(chunks, r.provenance) && r.weight == |ChunkIds(r.provenance)| >= 1
  }

  /** Fit for retrieval: every node has a record, and all records and edges rest on known chunks. */
  ghost predicate Fit(chunks: seq<Chunk>, g: Graph) {
    && WellFormed(g) && Traversal.Slotted(g)
    && forall id :: id in g.records ==> AllGrounded(chunks, g.records[id].provenance)
  }

  /** What entity resolution makes of the collected mentions. */
  ghost predicate ResolvedFrom(s: Setup, facts: seq<Fact<RawMention>>, merged: seq<Entity>, entities: seq<Entity>,
                               ids: map<Ref, string>)
  {
    var components := Partition.ComponentsOf(s.lexicon, Partition.Ordered(s.sortKey, AsMentions(facts)));
    EntityResolution.ResolvedAs(s.entityId, components, merged, entities, ids)
  }

  /** What `build_graph` makes of the collected facts, once references are resolved. */
  ghost predicate ConstructedWith(s: Setup, facts: Collected, merged: seq<Entity>, ids: map<Ref, string>,
                                  c: ConstructedGraph)
  {
    && ResolvedFrom(s, facts.entities, merged, c.entities, ids)
    && RelationsOf(ids, facts.relations, c.relations)
    && c.rejectedRelations == RejectedRelations(ids, facts.relations)
    && EventsOf(ids, s.eventId, facts.events, c.events)
    && ParticipationsOf(ids, s.eventId, facts.events, c.participations)
    && c.rejectedEvents == RejectedEvents(ids, s.eventId, facts.events)
  }

  /** The content constructed from the collected facts. */
  ghost predicate ConstructedFrom(s: Setup, facts: Collected, c: ConstructedGraph) {
    exists merged, ids :: ConstructedWith(s, facts, merged, ids, c)
  }

  /** Over the chunks of the same text, construction fails only for empty text,
      and whatever the extractor returned the result is sound and fit for retrieval. */
  method BuildGraphForNovel(s: Setup, text: string, chunks: seq<Chunk>, ghost ck: Chunker)
    returns (constructed: Result<ConstructedGraph>, eg: EntityGraph, ghost windows: seq<Segmentation.ExtractionWindow>,
             ghost facts: Collected)
    requires ValidSetup(s, text) && UniqueIds(chunks) && OfText(ck, text, chunks)
    ensures constructed.Raised? <==> text == ""
    ensures constructed.Ok? ==> Sound(chunks, constructed.value) && Fit(chunks, eg.graph)
    ensures constructed.Ok? ==> Assembled(constructed.value.entities, constructed.value.relations, eg.graph)
    ensures constructed.Ok? ==> forall k :: k in eg.nameToId ==> eg.nameToId[k] in eg.graph.records
    ensures constructed.Ok? ==> Segmentation.Segmented(s.tokenizer, text, s.patterns, windows)
    ensures constructed.Ok? ==> Segmentation.InOrder(windows, 0, |text|)
    ensures constructed.Ok? && Segmentation.LongEverywhere(s.tokenizer, text, s.patterns) ==>
      Segmentation.Covers(windows, 0, |text|)
    ensures constructed.Ok? ==>
      Gathered(s, text, chunks, windows, facts) && ConstructedFrom(s, facts, constructed.value)
  {
    hide UniqueIds, Sound, Fit, Assembled, CollectedGrounded, Gathered, ConstructedFrom, OfText,
         Segmentation.LongEverywhere, Segmentation.Covers, Segmentation.Segmented;
    eg := new EntityGraph();
    windows, facts := [], Collected([], [], []);
    var segmented := Segmentation.SegmentIntoExtractionWindows(s.tokenizer, text, s.patterns);
    if segmented.Raised? { return Raised, eg, windows, facts; }
    windows := segmented.value;
    var collected := GatherFacts(s, text, chunks, segmented.value, ck);
    facts := collected;
    var c := Construct(s, collected, chunks);
    eg := FromRecords(s.lower, c.entities, c.relations);
    AssembledIsFit(chunks, c, eg.graph);
    NamesLeadToRecords(s.lower, c.entities);
    RecordsAreLast(c.entities, c.relations, eg.graph);
    return Ok(c), eg, windows, facts;
  }

  method GatherFacts(s: Setup, text: string, chunks: seq<Chunk>, windows: seq<Segmentation.ExtractionWindow>,
                     ghost ck: Chunker)
    returns (facts: Collected)
    requires text != "" && Segmentation.InOrder(windows, 0, |text|) && UniqueIds(chunks) && OfText(ck, text, chunks)
    ensures CollectedGrounded(chunks, facts) && Gathered(s, text, chunks, windows, facts)
  {
    hide UniqueIds, OfText, CollectedGrounded, WindowAdds;
    facts := Collected([], [], []);
    NothingIsGrounded(chunks);
    TextHasChunks(ck, text, chunks);
    for x := 0 to |windows|
      invariant CollectedGrounded(chunks, facts) && Gathered(s, text, chunks, windows[..x], facts)
    {
      var more := AddWindow(s, text, chunks, windows[x], facts, ck);
      assert windows[..x + 1][..x] == windows[..x];
      facts := more.value;
    }
    assert windows[..|windows|] == windows;
  }

  lemma NothingIsGrounded(chunks: seq<Chunk>)
    ensures CollectedGrounded(chunks, Collected([], [], []))
  {
  }

  lemma TextHasChunks(ck: Chunker, text: string, chunks: seq<Chunk>)
    requires OfText(ck, text, chunks) && text != ""
    ensures chunks != []
  {
  }

  lemma RecordsAreLast(entities: seq<Entity>, relations: seq<Relation>, g: Graph)
    requires Assembled(entities, relations, g)
    ensures g.records == LastById(entities)
  {
  }

  method Construct(s: Setup, facts: Collected, chunks: seq<Chunk>) returns (c: ConstructedGraph)
    requires CollectedGrounded(chunks, facts)
    ensures Sound(chunks, c) && ConstructedFrom(s, facts, c)
  {
    hide Merge.PrimaryKeys, RelationsOf, EventsOf, ParticipationsOf, EntityResolution.ResolvedAs, AllGrounded,
         SoundRelation, SoundParticipation;
    var mentions := AsMentions(facts.entities);
    MentionsAreAnchored(chunks, facts.entities);
    var entities, ids;
    ghost var merged;
    entities, ids, merged := EntityResolution.ResolveEntities(s.lexicon, s.sortKey, s.entityId, mentions);
    assert ResolvedFrom(s, facts.entities, merged, entities, ids);
    var relations, rejectedRelations := BuildRelations(ids, facts.relations);
    EventsAreAnchored(chunks, facts.events);
    var events, participations, rejectedEvents := BuildEvents(ids, s.eventId, facts.events);
    c := ConstructedGraph(entities, relations, events, participations, rejectedRelations, rejectedEvents);
    assert ConstructedWith(s, facts, merged, ids, c);
    forall e | e in entities ensures AllGrounded(chunks, e.provenance) {
      EntityIsGrounded(s, chunks, facts.entities, merged, entities, ids, e);
    }
    forall r | r in relations ensures SoundRelation(chunks, entities, r) {
      var x :| 0 <= x < |relations| && relations[x] == r;
      RelationIsWhole(s, chunks, facts, merged, entities, ids, relations, x);
    }
    forall v | v in events ensures AllGrounded(chunks, v.provenance) {
      var x :| 0 <= x < |events| && events[x] == v;
      EventIsGrounded(chunks, ids, s.eventId, facts.events, events, x);
    }
    forall p | p in participations ensures SoundParticipation(chunks, entities, events, p) {
      var x :| 0 <= x < |participations| && participations[x] == p;
      ParticipationIsWhole(s, chunks, facts, merged, entities, ids, events, participations, x);
    }
  }

  lemma MentionsAreAnchored(chunks: seq<Chunk>, facts: seq<Fact<RawMention>>)
    requires FactsGrounded(chunks, facts)
    ensures EntityResolution.Anchored(AsMentions(facts))
  {
    forall m | m in AsMentions(facts) ensures m.provenance != [] {
      var i :| 0 <= i < |facts| && AsMentions(facts)[i] == m;
      assert facts[i] in facts;
    }
  }

  lemma EventsAreAnchored(chunks: seq<Chunk>, facts: seq<Fact<RawEvent>>)
    requires FactsGrounded(chunks, facts)
    ensures forall f :: f in facts ==> f.provenance != []
  {
  }

  lemma EntityIsGrounded(s: Setup, chunks: seq<Chunk>, facts: seq<Fact<RawMention>>, merged: seq<Entity>,
                         entities: seq<Entity>, ids: map<Ref, string>, e: Entity)
    requires FactsGrounded(chunks, facts) && e in entities
    requires ResolvedFrom(s, facts, merged, entities, ids)
    ensures AllGrounded(chunks, e.provenance)
  {
    hide EntityResolution.ResolvedAs, Grounded, FactsGrounded, Partition.ComponentsOf, Partition.Ordered;
    var mentions := AsMentions(facts);
    forall sp | sp in e.provenance ensures Grounded(chunks, sp) {
      EntityResolution.SpansAreKept(s.lexicon, s.sortKey, s.entityId, mentions, merged, entities, ids, sp);
      var m: Merge.Mention :| m in mentions && sp in m.provenance;
      var i :| 0 <= i < |facts| && mentions[i] == m;
      FactSpan(chunks, facts, facts[i], sp);
    }
    MentionsAreAnchored(chunks, facts);
    EntityResolution.EntitiesHaveSpans(s.lexicon, s.sortKey, s.entityId, mentions, merged, entities, ids, e);
  }

  lemma FactSpan<R(!new)>(chunks: seq<Chunk>, facts: seq<Fact<R>>, f: Fact<R>, sp: Span)
    requires FactsGrounded(chunks, facts) && f in facts && sp in f.provenance
    ensures Grounded(chunks, sp)
  {
  }

  lemma RelationIsWhole(s: Setup, chunks: seq<Chunk>, facts: Collected, merged: seq<Entity>, entities: seq<Entity>,
                        ids: map<Ref, string>, relations: seq<Relation>, x: nat)
    requires CollectedGrounded(chunks, facts) && RelationsOf(ids, facts.relations, relations) && x < |relations|
    requires ResolvedFrom(s, facts.entities, merged, entities, ids)
    ensures SoundRelation(chunks, entities, relations[x])
  {
    hide EntityResolution.ResolvedAs, Grounded, Partition.ComponentsOf, Partition.Ordered, RelationsOf, Classified;
    var r := relations[x];
    RelationIsSound(ids, facts.relations, relations, x);
    EndpointIsKnown(s, facts.entities, merged, entities, ids, r.subject);
    EndpointIsKnown(s, facts.entities, merged, entities, ids, r.obj);
    var f :| f in facts.relations && Classified(ids, f).0 == Some((r.subject, r.obj, r.kind));
    var first := f.provenance[0];
    assert first in f.provenance && first in r.provenance;
    assert first.chunkId in ChunkIds(r.provenance);
    forall sp | sp in r.provenance ensures Grounded(chunks, sp) {
      var h :| h in facts.relations && Classified(ids, h).0 == Some((r.subject, r.obj, r.kind)) && sp in h.provenance;
      FactSpan(chunks, facts.relations, h, sp);
    }
  }

  lemma EventIsGrounded(chunks: seq<Chunk>, ids: map<Ref, string>, hash: EventHash, facts: seq<Fact<RawEvent>>,
                        events: seq<Event>, x: nat)
    requires FactsGrounded(chunks, facts) && EventsOf(ids, hash, facts, events) && x < |events|
    ensures AllGrounded(chunks, events[x].provenance)
  {
    hide Grounded, EventsOf, EventOf;
    EventIsSound(ids, hash, facts, events, x);
    var f :| f in facts && EventOf(ids, hash, f) == Some(events[x].id);
    assert f.provenance[0] in f.provenance && f.provenance[0] in events[x].provenance;
    forall sp | sp in events[x].provenance ensures Grounded(chunks, sp) {
      var h :| h in facts && EventOf(ids, hash, h) == Some(events[x].id) && sp in h.provenance;
      FactSpan(chunks, facts, h, sp);
    }
  }

  lemma ParticipationIsWhole(s: Setup, chunks: seq<Chunk>, facts: Collected, merged: seq<Entity>, entities: seq<Entity>,
                             ids: map<Ref, string>, events: seq<Event>, ps: seq<Participation>, x: nat)
    requires CollectedGrounded(chunks, facts) && x < |ps|
    requires EventsOf(ids, s.eventId, facts.events, events) && ParticipationsOf(ids, s.eventId, facts.events, ps)
    requires ResolvedFrom(s, facts.entities, merged, entities, ids)
    ensures SoundParticipation(chunks, entities, events, ps[x])
  {
    hide EntityResolution.ResolvedAs, Grounded, Partition.ComponentsOf, Partition.Ordered, EventsOf, Takes;
    var p := ps[x];
    ParticipationIsSound(ids, s.eventId, facts.events, events, ps, x);
    EndpointIsKnown(s, facts.entities, merged, entities, ids, p.entity);
    ParticipationHasSpans(chunks, ids, s.eventId, facts.events, p);
    assert p.provenance[0].chunkId in ChunkIds(p.provenance);
    var y :| 0 <= y < |events| && events[y].id == p.event && forall sp :: sp in p.provenance ==>
      sp in events[y].provenance;
    assert events[y] in events;
  }

  lemma ParticipationHasSpans(chunks: seq<Chunk>, ids: map<Ref, string>, hash: EventHash, facts: seq<Fact<RawEvent>>,
                              p: Participation)
    requires FactsGrounded(chunks, facts) && ParticipationFor(ids, hash, facts, p)
    ensures AllGrounded(chunks, p.provenance)
  {
    hide Grounded, Takes;
    var k := (p.entity, p.event, p.role);
    var f :| f in facts && Takes(ids, hash, f, k);
    assert f.provenance[0] in f.provenance && f.provenance[0] in p.provenance;
    forall sp | sp in p.provenance ensures Grounded(chunks, sp) {
      var h :| h in facts && Takes(ids, hash, h, k) && sp in h.provenance;
      FactSpan(chunks, facts, h, sp);
    }
  }

  lemma EndpointIsKnown(s: Setup, facts: seq<Fact<RawMention>>, merged: seq<Entity>, entities: seq<Entity>,
                        ids: map<Ref, string>, id: string)
    requires id in ids.Values
    requires ResolvedFrom(s, facts, merged, entities, ids)
    ensures exists e :: e in entities && e.id == id
  {
    hide EntityResolution.ResolvedAs, Partition.ComponentsOf, Partition.Ordered;
    var ref :| ref in ids && ids[ref] == id;
    EntityResolution.ReferencesResolve(s.lexicon, s.sortKey, s.entityId, AsMentions(facts), merged, entities, ids, ref);
  }

  lemma AssembledIsFit(chunks: seq<Chunk>, c: ConstructedGraph, g: Graph)
    requires Sound(chunks, c) && Assembled(c.entities, c.relations, g)
    ensures Fit(chunks, g)
  {
    hide Assembled, AllGrounded, LastById;
    AssembledIsWellFormedIff(c.entities, c.relations, g);
    RecordsAreLast(c.entities, c.relations, g);
    forall id | id in g.records ensures AllGrounded(chunks, g.records[id].provenance) { LastByIdKeys(c.entities, id); }
    assert forall r :: r in c.relations ==> SoundRelation(chunks, c.entities, r);
  }

  lemma {:induction false} NamesLeadToRecords(lower: string -> string, entities: seq<Entity>)
    ensures forall k :: k in NameIndex(lower, entities) ==> NameIndex(lower, entities)[k] in LastById(entities)
  {
    if entities != [] { NamesLeadToRecords(lower, entities[..|entities| - 1]); }
  }

  // ----- GraphIndex -----

  datatype Evidence = Evidence(chunkId: string, text: string, score: real, rank: nat, provenance: Span)

  class GraphIndex {
    var built: Option<EntityGraph>
    var chunksById: map<string, Chunk>

    constructor ()
      ensures built == None && chunksById == map[]
    {
      built, chunksById := None, map[];
    }

    /** The graph in use can be walked: every node it can meet has a record. */
    ghost predicate Walkable()
      reads this, if built.Some? then {built.value} else {}
    {
      && built.Some? && WellFormed(built.value.graph) && Traversal.Slotted(built.value.graph)
      && forall k :: k in built.value.nameToId ==> built.value.nameToId[k] in built.value.graph.records
    }

    /** The chunk map is the one of `chunks`, and the graph in use is fit for it. */
    ghost predicate Serves(chunks: seq<Chunk>)
      reads this, if built.Some? then {built.value} else {}
    {
      && built.Some? && IndexedById(chunks, chunksById) && Fit(chunks, built.value.graph)
      && forall k :: k in built.value.nameToId ==> built.value.nameToId[k] in built.value.graph.records
    }

    /** `load_graph` */
    method LoadGraph(eg: EntityGraph, chunks: seq<Chunk>) returns (r: Result<()>)
      requires UniqueIds(chunks)
      modifies this
      ensures r.Raised? <==> chunks == []
      ensures r.Raised? ==> built == old(built) && chunksById == old(chunksById)
      ensures r.Ok? ==> built == Some(eg) && IndexedById(chunks, chunksById)
    {
      if chunks == [] { return Raised; }
      chunksById := map c | c in chunks :: c.id := c;
      built := Some(eg);
      return Ok(());
    }

    /** `index`: the G1 graph of the chunks themselves. */
    method Index(b: Builder, chunks: seq<Chunk>) returns (r: Result<()>)
      requires UniqueIds(chunks) && InjectiveId(b) && DistinctSpans(chunks)
      requires forall c :: c in chunks ==> c.start < c.end
      modifies this
      ensures r.Raised? <==> chunks == []
      ensures r.Raised? ==> built == old(built) && chunksById == old(chunksById)
      ensures r.Ok? ==> Serves(chunks) && Built(b, chunks, built.value.graph, built.value.nameToId)
    {
      hide InjectiveId, DistinctSpans, Built, Fit;
      if chunks == [] { return Raised; }
      chunksById := map c | c in chunks :: c.id := c;
      var eg := BuildEntityGraph(b, chunks);
      BuiltIsFit(b, chunks, eg.graph, eg.nameToId);
      built := Some(eg);
      return Ok(());
    }

    /** The evidence list: each ranked chunk looked up and cited in full; an unknown chunk raises. */
    method Cite(ranked: seq<(string, real)>) returns (r: Result<seq<Evidence>>)
      ensures Answered(chunksById, ranked, r)
    {
      var evidence: seq<Evidence> := [];
      for x := 0 to |ranked|
        invariant Listed(chunksById, ranked[..x], evidence)
      {
        var (chunkId, score) := ranked[x];
        if chunkId !in chunksById { return Raised; }
        var c := chunksById[chunkId];
        evidence := evidence + [Evidence(chunkId, c.text, score, x + 1, Span(c.id, c.start, c.end))];
      }
      assert ranked[..|ranked|] == ranked;
      return Ok(evidence);
    }

    /** `query`: the `topK` best scored chunks in order, each cited in full, unless
        one of them is not loaded. Over the chunks the graph rests on that never
        happens, and each evidence cites one of them. */
    method Query(b: Builder, query: string, topK: nat, maxHops: nat, ghost chunks: seq<Chunk>)
      returns (r: Result<seq<Evidence>>)
      requires built.Some? ==> Walkable()
      ensures topK < 1 || built.None? ==> r.Raised?
      ensures topK >= 1 && built.Some? ==> exists ids, ranked ::
        && Entered(b, built.value.nameToId, query, ids) && Ranking(built.value.graph, ids, maxHops, topK, ranked)
        && Answered(chunksById, ranked, r)
      ensures r.Ok? ==> forall x, y :: 0 <= x < y < |r.value| ==>
        || r.value[x].score > r.value[y].score
        || (r.value[x].score == r.value[y].score && Order.Earlier(r.value[x].chunkId, r.value[y].chunkId))
      ensures topK >= 1 && Serves(chunks) ==>
        r.Ok? && forall x :: 0 <= x < |r.value| ==> Cites(chunks, r.value[x], x)
    {
      hide Fit, Traversal.Scored, Ranking, Answered, IndexedById, Cites, Order.Distinct, Order.SortBy, Traversal.Ahead;
      if topK < 1 || built.None? { return Raised; }
      var eg := built.value;
      var ids := Traversal.ResolveEntries(b, eg.nameToId, query);
      var ranked: seq<(string, real)> := [];
      if ids == [] {
        NothingRanked(eg.graph, maxHops, topK);
        r := Ok([]);
        NothingAnswered(chunksById);
      } else {
        EntriesHaveRecords(b, eg.nameToId, query, ids, eg.graph);
        var scores := Traversal.ScoreChunks(eg, ids, maxHops);
        ranked := Traversal.RankChunks(scores, topK);
        RankedMeans(eg.graph, ids, maxHops, topK, scores, ranked);
        r := Cite(ranked);
      }
      if r.Ok? { AnsweredInOrder(chunksById, eg.graph, ids, maxHops, topK, ranked, r); }
      if Serves(chunks) { RankedIsKnown(chunks, chunksById, eg.graph, ids, maxHops, topK, ranked, r); }
    }
  }

  /** The chunks of a document are fit for both ways of filling an index. */
  lemma DocumentChunksFit(ck: Chunker, text: string, chunks: seq<Chunk>)
    requires ValidChunker(ck) && Chunked(ck, text, chunks) && InjectiveIds(ck)
    ensures UniqueIds(chunks) && DistinctSpans(chunks) && forall c :: c in chunks ==> c.start < c.end
  {
    ChunkIdsAreUnique(ck, text, chunks);
    forall i, j | 0 <= i < j < |chunks|
      ensures SpanOf(chunks[i]) != SpanOf(chunks[j])
    {
      StartsGrow(ck, text, chunks, i, j);
    }
    forall c | c in chunks ensures c.start < c.end {
      var i :| 0 <= i < |chunks| && chunks[i] == c;
      assert IsChunk(ck, text, chunks[i]);
    }
  }

  lemma {:induction false} StartsGrow(ck: Chunker, text: string, chunks: seq<Chunk>, i: nat, j: nat)
    requires ValidChunker(ck) && Chunked(ck, text, chunks) && i < j < |chunks|
    ensures chunks[i].start < chunks[j].start
    decreases j
  {
    if i < j - 1 { StartsGrow(ck, text, chunks, i, j - 1); }
  }

  /** Evidence at list position `x` cites one real chunk in full. */
  ghost predicate Cites(chunks: seq<Chunk>, e: Evidence, x: nat) {
    && e.rank == x + 1
    && exists c :: c in chunks && (e.chunkId, e.text, e.provenance) == (c.id, c.text, Span(c.id, c.start, c.end))
  }

  /** The entry ids of a query: the known ids of its mentions, each once, in order of first mention. */
  ghost predicate Entered(b: Builder, nameToId: map<string, string>, query: string, ids: seq<string>) {
    ids == Order.Distinct(Traversal.KnownIds(b, nameToId, b.mentions(query)))
  }

  /** Each ranked chunk's own text and span, with its score and rank. */
  ghost predicate Listed(byId: map<string, Chunk>, ranked: seq<(string, real)>, es: seq<Evidence>) {
    && |es| == |ranked|
    && forall x :: 0 <= x < |ranked| ==>
         && ranked[x].0 in byId
         && var c := byId[ranked[x].0];
            es[x] == Evidence(ranked[x].0, c.text, ranked[x].1, x + 1, Span(c.id, c.start, c.end))
  }

  /** A lookup fails exactly when a ranked chunk is not loaded. */
  ghost predicate Answered(byId: map<string, Chunk>, ranked: seq<(string, real)>, r: Result<seq<Evidence>>) {
    if forall x :: 0 <= x < |ranked| ==> ranked[x].0 in byId then r.Ok? && Listed(byId, ranked, r.value) else r.Raised?
  }

  /** The `topK` best chunks, best first, with their closed-form scores: no chunk
      twice, fewer than `topK` only when every chunk met is there, and a chunk
      left out beats none kept. */
  ghost predicate Ranking(g: Graph, ids: seq<string>, hops: nat, topK: nat, ranked: seq<(string, real)>) {
    && |ranked| <= topK
    && (forall x ::
      0 <= x < |ranked| ==>
        Traversal.Met(g, ids, hops, ranked[x].0) && ranked[x].1 == Traversal.Score(g, ids, hops, ranked[x].0))
    && (forall x, y :: 0 <= x < y < |ranked| ==> ranked[x].0 != ranked[y].0 && Traversal.Ahead(ranked[x], ranked[y]))
    && (|ranked| == topK
        || forall c :: Traversal.Met(g, ids, hops, c) ==> exists x :: 0 <= x < |ranked| && ranked[x].0 == c)
    && (forall c, x ::
      Traversal.Met(g, ids, hops, c) && 0 <= x < |ranked| && (forall y :: 0 <= y < |ranked| ==> ranked[y].0 != c) ==>
          Traversal.Ahead(ranked[x], (c, Traversal.Score(g, ids, hops, c))))
  }

  lemma NothingRanked(g: Graph, hops: nat, topK: nat)
    ensures Ranking(g, [], hops, topK, [])
  {
    forall c ensures !Traversal.Met(g, [], hops, c) { NothingMet(g, hops, c); }
  }

  lemma NothingAnswered(byId: map<string, Chunk>)
    ensures Answered(byId, [], Ok([]))
  {
  }

  lemma {:induction false} NothingMet(g: Graph, hops: nat, c: string)
    ensures Traversal.Within(g, Traversal.SetOf([]), hops) == {} && !Traversal.Met(g, [], hops, c)
  {
    if hops > 0 { NothingMet(g, hops - 1, c); }
  }

  lemma EntriesHaveRecords(b: Builder, nameToId: map<string, string>, query: string, ids: seq<string>, g: Graph)
    requires forall id ::
      id in ids ==> exists m :: m in b.mentions(query) && b.lower(m) in nameToId && nameToId[b.lower(m)] == id
    requires forall k :: k in nameToId ==> nameToId[k] in g.records
    ensures forall id :: id in ids ==> id in g.records
  {
  }

  lemma {:induction false} CountedIsNamed(provenance: seq<Span>, chunk: string)
    requires Traversal.Count(provenance, chunk) > 0
    ensures exists sp :: sp in provenance && sp.chunkId == chunk
  {
    var last := provenance[|provenance| - 1];
    if last.chunkId == chunk {
      assert last in provenance;
    } else {
      CountedIsNamed(provenance[..|provenance| - 1], chunk);
    }
  }

  /** Traversal never leaves the chunk-id space. */
  lemma ScoredIsKnown(chunks: seq<Chunk>, byId: map<string, Chunk>, g: Graph, ids: seq<string>, hops: nat,
                      chunkId: string)
    requires Fit(chunks, g) && IndexedById(chunks, byId) && Traversal.Met(g, ids, hops, chunkId)
    ensures chunkId in byId && byId[chunkId] in chunks && byId[chunkId].id == chunkId
  {
    hide Traversal.Within, WellFormed, Traversal.Slotted, Traversal.Score;
    var v :| v in Traversal.Within(g, Traversal.SetOf(ids), hops) && Traversal.EntityCount(g, v, chunkId) > 0;
    CountedIsNamed(g.records[v].provenance, chunkId);
    var sp :| sp in g.records[v].provenance && sp.chunkId == chunkId;
    assert Grounded(chunks, sp);
  }

  lemma RankedIsKnown(chunks: seq<Chunk>, byId: map<string, Chunk>, g: Graph, ids: seq<string>, hops: nat, topK: nat,
                      ranked: seq<(string, real)>, r: Result<seq<Evidence>>)
    requires Fit(chunks, g) && IndexedById(chunks, byId) && Ranking(g, ids, hops, topK, ranked)
    requires Answered(byId, ranked, r)
    ensures r.Ok? && forall x :: 0 <= x < |r.value| ==> Cites(chunks, r.value[x], x)
  {
    hide Fit, IndexedById, Traversal.Met, Traversal.Score, Traversal.Ahead;
    forall x | 0 <= x < |ranked|
      ensures ranked[x].0 in byId && byId[ranked[x].0] in chunks && byId[ranked[x].0].id == ranked[x].0
    {
      ScoredIsKnown(chunks, byId, g, ids, hops, ranked[x].0);
    }
  }

  lemma AnsweredInOrder(byId: map<string, Chunk>, g: Graph, ids: seq<string>, hops: nat, topK: nat,
                        ranked: seq<(string, real)>, r: Result<seq<Evidence>>)
    requires Ranking(g, ids, hops, topK, ranked) && Answered(byId, ranked, r) && r.Ok?
    ensures forall x, y :: 0 <= x < y < |r.value| ==>
      || r.value[x].score > r.value[y].score
      || (r.value[x].score == r.value[y].score && Order.Earlier(r.value[x].chunkId, r.value[y].chunkId))
  {
    hide Traversal.Met, Traversal.Score, Order.Earlier;
    forall x, y | 0 <= x < y < |r.value|
      ensures || r.value[x].score > r.value[y].score
              || (r.value[x].score == r.value[y].score && Order.Earlier(r.value[x].chunkId, r.value[y].chunkId))
    {
      assert Traversal.Ahead(ranked[x], ranked[y]);
    }
  }

  lemma RankedMeans(g: Graph, ids: seq<string>, hops: nat, topK: nat, scores: map<string, real>,
                    ranked: seq<(string, real)>)
    requires Traversal.Scored(g, ids, hops, scores)
    requires Order.NoDuplicates(ranked)
    requires forall x, y :: 0 <= x < y < |ranked| ==> Traversal.Ahead(ranked[x], ranked[y])
    requires |ranked| == if |scores| < topK then |scores| else topK
    requires |scores| <= topK ==> forall c :: c in scores ==> (c, scores[c]) in ranked
    requires forall p :: p in ranked ==> p.0 in scores && scores[p.0] == p.1
    requires forall c, x ::
      c in scores && (c, scores[c]) !in ranked && 0 <= x < |ranked| ==> Traversal.Ahead(ranked[x], (c, scores[c]))
    ensures Ranking(g, ids, hops, topK, ranked)
  {
    hide Traversal.Score, Traversal.Met, Traversal.Ahead;
    forall x | 0 <= x < |ranked|
      ensures Traversal.Met(g, ids, hops, ranked[x].0)
      ensures ranked[x].1 == Traversal.Score(g, ids, hops, ranked[x].0) == scores[ranked[x].0]
    {
      assert ranked[x] in ranked;
      assert Traversal.At(scores, ranked[x].0) == Traversal.Score(g, ids, hops, ranked[x].0);
    }
    forall c, x | Traversal.Met(g, ids, hops, c) && 0 <= x < |ranked|
      && (forall y :: 0 <= y < |ranked| ==> ranked[y].0 != c)
      ensures Traversal.Ahead(ranked[x], (c, Traversal.Score(g, ids, hops, c)))
    {
      assert Traversal.At(scores, c) == Traversal.Score(g, ids, hops, c);
      assert ranked[x] in ranked;
      forall y | 0 <= y < |ranked| ensures ranked[y] != (c, scores[c]) { assert ranked[y].0 != c; }
    }
    forall c | Traversal.Met(g, ids, hops, c) && |ranked| != topK
      ensures exists x :: 0 <= x < |ranked| && ranked[x].0 == c
    {
      var x :| 0 <= x < |ranked| && ranked[x] == (c, scores[c]);
    }
    forall x, y | 0 <= x < y < |ranked| ensures ranked[x].0 != ranked[y].0 {
      assert ranked[x] in ranked && ranked[y] in ranked && ranked[x] != ranked[y];
    }
  }

  /** The G1 graph of a list of chunks is fit for them. */
  lemma BuiltIsFit(b: Builder, chunks: seq<Chunk>, g: Graph, nameToId: map<string, string>)
    requires Built(b, chunks, g, nameToId) && forall c :: c in chunks ==> c.start < c.end
    ensures Fit(chunks, g) && forall k :: k in nameToId ==> nameToId[k] in g.records
  {
    hide Built, WellFormed, Traversal.Slotted, NamesIn, Mentioning;
    Traversal.BuiltIsTraversable(b, chunks, g, nameToId);
    forall id | id in g.records ensures AllGrounded(chunks, g.records[id].provenance) {
      RecordIsMentioned(b, chunks, g, nameToId, id);
      EntityAgreesWithCount(b, chunks, g, nameToId, g.records[id].name);
      var c :| c in chunks && b.lower(g.records[id].name) in NamesIn(b, c);
      assert SpanOf(c) in g.records[id].provenance;
      forall sp | sp in g.records[id].provenance ensures Grounded(chunks, sp) {
        var d :| d in chunks && b.lower(g.records[id].name) in NamesIn(b, d) && SpanOf(d) == sp;
      }
    }
  }

  lemma RecordIsMentioned(b: Builder, chunks: seq<Chunk>, g: Graph, nameToId: map<string, string>, id: string)
    requires Built(b, chunks, g, nameToId) && id in g.records
    ensures var k := b.lower(g.records[id].name); k in nameToId && nameToId[k] == id
  {
    hide EdgesAre, Mentioning;
    assert RecordIs(b, g.records, nameToId, id);
  }
}
