/** Which facts reach the graph of a novel, and what of each mention the merge policy sees. */
module NovelFacts {
  import opened Schemas
  import opened Chunking
  import opened Matching
  import opened Provenance
  import opened EntityGraphs
  import opened Construction
  import opened NovelGraph
  import EntityResolution
  import Merge
  import Partition
  import Segmentation
  import Order

  /** The fact is the one the extractor gave at `i`, seen in this window, with the
      spans its own quotes resolve to there. */
  ghost predicate IsFactOf<R>(config: ProvenanceConfig, given: seq<Quoted<R>>, w: Segmentation.ExtractionWindow,
                              window: string, chunks: seq<Chunk>, i: nat, f: Fact<R>)
  {
    && i < |given| && f.raw == given[i].raw && f.chapter == w.chapter && f.window == w.window
    && exists matches :: ResolutionOf(config, given[i].quotes, window, w.start, chunks, Resolved(f.provenance, matches))
  }

  ghost predicate KeptAt<R>(given: seq<Quoted<R>>, outcomes: seq<Resolution>, w: Segmentation.ExtractionWindow, i: nat,
                            f: Fact<R>)
    requires i < |given| == |outcomes|
  {
    outcomes[i].Resolved? && f == Fact(given[i].raw, w.chapter, w.window, outcomes[i].provenance)
  }

  lemma {:induction false} KeptIs<R>(given: seq<Quoted<R>>, outcomes: seq<Resolution>,
                                     w: Segmentation.ExtractionWindow, f: Fact<R>)
    requires |given| == |outcomes|
    ensures f in Kept(given, outcomes, w) <==> exists i :: 0 <= i < |given| && KeptAt(given, outcomes, w, i, f)
  {
    if given != [] {
      var n := |given| - 1;
      KeptIs(given[..n], outcomes[..n], w, f);
      if i :| 0 <= i < n && KeptAt(given[..n], outcomes[..n], w, i, f) { assert KeptAt(given, outcomes, w, i, f); }
      if i :| 0 <= i < |given| && KeptAt(given, outcomes, w, i, f) {
        if i < n {
          assert KeptAt(given[..n], outcomes[..n], w, i, f);
        } else {
          assert Kept(given, outcomes, w) == Kept(given[..n], outcomes[..n], w) + [f];
        }
      }
      if f in Kept(given, outcomes, w) && f !in Kept(given[..n], outcomes[..n], w) {
        assert KeptAt(given, outcomes, w, n, f);
      }
    }
  }

  /** A window's facts are exactly those of its extraction whose quotes resolve. */
  lemma WindowFactsAre<R>(config: ProvenanceConfig, given: seq<Quoted<R>>, w: Segmentation.ExtractionWindow,
                          window: string, chunks: seq<Chunk>, out: seq<Fact<R>>, f: Fact<R>)
    requires WindowFacts(config, given, w, window, chunks, out)
    ensures f in out <==> exists i: nat :: IsFactOf(config, given, w, window, chunks, i, f)
  {
    hide ResolutionOf, Kept;
    var outcomes: seq<Resolution> :| |outcomes| == |given|
      && (forall i :: 0 <= i < |given| ==> ResolutionOf(config, given[i].quotes, window, w.start, chunks, outcomes[i]))
      && out == Kept(given, outcomes, w);
    KeptIs(given, outcomes, w, f);
    if f in out {
      var i :| 0 <= i < |given| && KeptAt(given, outcomes, w, i, f);
      assert outcomes[i] == Resolved(f.provenance, outcomes[i].matches);
      assert IsFactOf(config, given, w, window, chunks, i, f);
    }
    if i: nat :| IsFactOf(config, given, w, window, chunks, i, f) {
      var matches :| ResolutionOf(config, given[i].quotes, window, w.start, chunks, Resolved(f.provenance, matches));
      FactResolutionIsUnique(config, given[i].quotes, window, w.start, chunks, outcomes[i],
                             Resolved(f.provenance, matches));
      assert KeptAt(given, outcomes, w, i, f);
    }
  }

  /** The window's own text goes to the extractor, with its chapter and number. */
  ghost predicate Extracted(s: Setup, text: string, w: Segmentation.ExtractionWindow, x: Extraction) {
    w.start < w.end <= |text| && s.extract(text[w.start..w.end], w.chapter, w.window) == Ok(x)
  }

  /** The mention, relation or event was given for this window and its quotes resolve there. */
  ghost predicate GivenMention(s: Setup, text: string, chunks: seq<Chunk>, w: Segmentation.ExtractionWindow,
                               f: Fact<RawMention>)
  {
    exists x, i: nat ::
      Extracted(s, text, w, x) && IsFactOf(s.config, x.entities, w, text[w.start..w.end], chunks, i, f)
  }

  ghost predicate GivenRelation(s: Setup, text: string, chunks: seq<Chunk>, w: Segmentation.ExtractionWindow,
                                f: Fact<RawRelation>)
  {
    exists x, i: nat ::
      Extracted(s, text, w, x) && IsFactOf(s.config, x.relations, w, text[w.start..w.end], chunks, i, f)
  }

  ghost predicate GivenEvent(s: Setup, text: string, chunks: seq<Chunk>, w: Segmentation.ExtractionWindow,
                             f: Fact<RawEvent>)
  {
    exists x, i: nat ::
      Extracted(s, text, w, x) && IsFactOf(s.config, x.events, w, text[w.start..w.end], chunks, i, f)
  }

  lemma AddedAre(s: Setup, text: string, chunks: seq<Chunk>, w: Segmentation.ExtractionWindow, before: Collected,
                 after: Collected)
    requires w.start < w.end <= |text| && WindowAdds(s, text, chunks, w, before, after)
    ensures forall f :: f in after.entities <==> f in before.entities || GivenMention(s, text, chunks, w, f)
    ensures forall f :: f in after.relations <==> f in before.relations || GivenRelation(s, text, chunks, w, f)
    ensures forall f :: f in after.events <==> f in before.events || GivenEvent(s, text, chunks, w, f)
  {
    hide WindowFacts, IsFactOf;
    var window := text[w.start..w.end];
    var extraction := s.extract(window, w.chapter, w.window);
    if extraction.Ok? {
      var x := extraction.value;
      assert Extracted(s, text, w, x);
      var es, rs, vs :|
        && WindowFacts(s.config, x.entities, w, window, chunks, es)
        && WindowFacts(s.config, x.relations, w, window, chunks, rs)
        && WindowFacts(s.config, x.events, w, window, chunks, vs)
        && after == Collected(before.entities + es, before.relations + rs, before.events + vs);
      forall f ensures f in es <==> GivenMention(s, text, chunks, w, f) {
        WindowFactsAre(s.config, x.entities, w, window, chunks, es, f);
      }
      forall f ensures f in rs <==> GivenRelation(s, text, chunks, w, f) {
        WindowFactsAre(s.config, x.relations, w, window, chunks, rs, f);
      }
      forall f ensures f in vs <==> GivenEvent(s, text, chunks, w, f) {
        WindowFactsAre(s.config, x.events, w, window, chunks, vs, f);
      }
    }
  }

  /** Collected is exactly what the extractor gave for some window, where its quotes resolve. */
  lemma {:induction false} CollectedAre(s: Setup, text: string, chunks: seq<Chunk>,
                                        ws: seq<Segmentation.ExtractionWindow>, facts: Collected)
    requires Gathered(s, text, chunks, ws, facts)
    ensures forall f :: f in facts.entities <==> exists w :: w in ws && GivenMention(s, text, chunks, w, f)
    ensures forall f :: f in facts.relations <==> exists w :: w in ws && GivenRelation(s, text, chunks, w, f)
    ensures forall f :: f in facts.events <==> exists w :: w in ws && GivenEvent(s, text, chunks, w, f)
    decreases |ws|
  {
    hide WindowAdds, GivenMention, GivenRelation, GivenEvent;
    if ws != [] {
      var last, front := ws[|ws| - 1], ws[..|ws| - 1];
      assert ws == front + [last];
      var before :| Gathered(s, text, chunks, front, before) && WindowAdds(s, text, chunks, last, before, facts);
      CollectedAre(s, text, chunks, front, before);
      AddedAre(s, text, chunks, last, before, facts);
    }
  }

  /** A mention is seen under its own name, aliases, type, spans, window and local name. */
  lemma MentionIsSeen(facts: seq<Fact<RawMention>>, i: nat)
    requires i < |facts|
    ensures |AsMentions(facts)| == |facts|
    ensures var m, f := AsMentions(facts)[i], facts[i];
      && m.name == f.raw.name && m.aliases == f.raw.aliases && m.kind == f.raw.kind && m.localId == f.raw.localId
      && m.chapter == f.chapter && m.window == f.window && m.provenance == f.provenance
  {
  }

  /** Every entity is called by the name of one of the mentions it was merged from;
      every mention's local name stands for an entity. */
  lemma EntitiesAreNamed(s: Setup, facts: Collected, merged: seq<Entity>, ids: map<Ref, string>, c: ConstructedGraph)
    requires ConstructedWith(s, facts, merged, ids, c)
    ensures forall e :: e in c.entities ==> exists f :: f in facts.entities && f.raw.name == e.name
    ensures forall f :: f in facts.entities ==>
      var ref := Ref(f.chapter, f.window, f.raw.localId);
      ref in ids && exists e :: e in c.entities && e.id == ids[ref]
  {
    hide EntityResolution.ResolvedAs, RelationsOf, EventsOf, ParticipationsOf, Partition.ComponentsOf,
         Partition.Ordered;
    var mentions := AsMentions(facts.entities);
    forall e | e in c.entities ensures exists f :: f in facts.entities && f.raw.name == e.name {
      var m := NamedAfter(s, mentions, merged, c.entities, ids, e);
      var i :| 0 <= i < |mentions| && mentions[i] == m;
      assert facts.entities[i] in facts.entities;
    }
    forall f | f in facts.entities
      ensures var ref := Ref(f.chapter, f.window, f.raw.localId);
        ref in ids && exists e :: e in c.entities && e.id == ids[ref]
    {
      var i :| 0 <= i < |facts.entities| && facts.entities[i] == f;
      assert mentions[i] in mentions;
      EntityResolution.ReferencesResolve(s.lexicon, s.sortKey, s.entityId, mentions, merged, c.entities, ids,
                                         EntityResolution.RefOf(mentions[i]));
    }
  }

  lemma NamedAfter(s: Setup, mentions: seq<Merge.Mention>, merged: seq<Entity>, entities: seq<Entity>,
                   ids: map<Ref, string>, e: Entity) returns (m: Merge.Mention)
    requires EntityResolution.ResolvedAs(
      s.entityId, Partition.ComponentsOf(s.lexicon, Partition.Ordered(s.sortKey, mentions)), merged, entities, ids)
    requires e in entities
    ensures m in mentions && m.name == e.name
  {
    hide EntityResolution.Maps, Partition.ComponentsOf, Partition.Ordered, Order.SortBy, Arrangement,
         EntityResolution.IsMajorityType, EntityResolution.Outranks;
    var ordered := Partition.Ordered(s.sortKey, mentions);
    var components := Partition.ComponentsOf(s.lexicon, ordered);
    EntityResolution.EntitiesAreMerged(merged, entities, e);
    var x :| 0 <= x < |merged| && merged[x] == e;
    assert EntityResolution.IsMerged(s.entityId, components[x], e);
    m :| m in components[x] && m.name == e.name;
    EntityResolution.ComponentsCover(s.lexicon, ordered, m);
    EntityResolution.OrderedMembers(s.sortKey, mentions, m);
  }
}
