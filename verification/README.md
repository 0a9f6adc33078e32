# LNCVS verification

A model of the two algorithmic pipelines of LNCVS, and proofs about them.

**From narrative to graph.** The text is cut into overlapping chunks (`Chunking`)
and into extraction windows (`Segmentation`, `TokenBudget`). A model extracts
mentions, relations and events with quotes; each quote is resolved in its window
through a canonical form with an offset map (`Canon`, `Matching`, `Ambiguity`) and
turned into spans of real chunks (`Provenance`). Mentions are merged into entities
by a union-find under a two-clause policy (`UnionFind`, `Merge`, `Components`,
`Partition`, `EntityResolution`, `Namesakes`); relations and events are assembled
with quarantine (`Construction`) under content hashes (`Identities`); the traversal
graph is built from them (`Records`) or straight from chunks (`EntityGraphs`,
`NeighbourOrder`) and searched by a bounded breadth-first score (`Traversal`).
`NovelGraph` composes all of it; `Determinism` and `Fingerprint` say how far the
result is a function of the input.

**From claim to verdict.** A claim is decomposed, queries are built, evidence is
retrieved and stamped (`Stages`), fused (`Fusion`), verified (`Stages`,
`FactVerification`) and judged (`Rules`), all recorded on a write-once ledger
(`Ledgers`). `Pipeline` holds the node machine and the straight-line runner,
`RunProperties` what every run ends with. `Caches`, `NliCache` and `JsonlCaches` are
the model caches, `Keys` what their keys tell apart.

Loops over mutable arrays, dictionaries and worklists are methods proved against
specifications that are plain mathematics: the closure of a relation, shortest
distance, interval cover, replay of a log, sums over groups. Sets and dictionaries
whose order the source leaves open are iterated in an arbitrary order here, so a
contract that fixes the result holds for every hash seed. `Schemas`, `Order` and
`Grouping` hold what several modules share.

What those specifications come to is then said a second time, of the records
themselves and without naming them: which names and aliases join two mentions
(`MergePolicy`), what a text's visible stretches become (`CanonWords`), what one entity
adds to a score (`ScoreTerms`), which facts make an edge or event (`GraphFacts`,
`NovelFacts`, `RecordFacts`), how entities are called (`EntityFacts`), what a fused
record holds (`FusionFacts`), which fields decide a verdict (`Verdicts`), what a run
asks and records (`RunFacts`, `LedgerFacts`) and how windows are numbered
(`WindowNumbers`).

Tokenizers, regular expressions, models, retrieval backends and content hashes are
parameters. What is asked of them is a `requires`: hashes are injective where a
lemma says so, a tokenizer's tokens are non-empty and concatenate to the text,
headings are found in ascending order, JSON records round-trip on one line and a
part of one is none. Floats are `real`. `dafny verify dfyconfig.toml` checks the
project.

## Where the code and its documentation part

Each item names the lemma with an input that shows it and the lemma that says exactly
when the promise holds.

- *Windows "always cover the text with no gaps"* (`segmentation.py:131-132`,
  `262-263`). The snap searches `4 * tolerance` characters back, the overlap is
  counted in tokens, so tokens of one character can leave a gap. `NoGapsIff` gives the
  condition on a budget, which both shipped budgets fail for some lossless tokenizer
  (`ShippedBudgetsCanLeaveGaps`); `NoGapsWhenTokensAreLong` gives one on a text, and
  `GapsAreShort` bounds a gap in every text (198 characters as shipped).
- *Windows are non-empty* (`segmentation.py:79-83`). A radius of `max + 2` characters
  or more can snap a window's end to its start. `WindowIsSwallowed`, `NonEmptyIff`.
- *"Each window holding at most `max_tokens` tokens"* (`segmentation.py:128-132`).
  Checked for the snapped end only. `EveryBudgetCanOverrun`, `WithinBudgetIff`.
- *Provenance order is deterministic* (`construction/service.py:32`,
  `merge.py:385-387`, `builder.py:145-147`). A set is sorted by chunk and start only;
  two spans that differ in their end keep the set's own order. `SharedStart`,
  `SortedSetIsDeterministicIff`. Within one fact a dictionary fixes the order:
  `FactResolutionIsUnique`. For entity resolution ("fully deterministic",
  `entity_resolution/service.py:3-6`) and for whole graphs: `ResolutionIsUniqueIff`,
  `BuildIsDeterministicIff`, `GraphIsUniqueIff`.
- *Same fingerprint regardless of input ordering* (`fingerprint.py:4-9`): not when two
  entities share an id and differ in a span. `NamesakeOrderShows`, `FingerprintOrderFreeIff`,
  `ConstructedFingerprintIff`; that they can share one: `NamesakesShareId`.
- *`neighbor_relations` ascends by the neighbour's id* (`builder.py:163-164`). It
  sorts by `(subject, object)`, which is another order once an edge points backwards.
  `BackwardEdgeBreaksOrder`, `NeighboursAscendIff`, and always so in the graph built
  from chunks (`BuiltNeighboursAscend`). Scores do not depend on it.
- *`ambiguous` means more than one occurrence* (`matching.py:33-34`). `str.count`
  sees only occurrences that do not overlap. `OverlapIsNotFlagged`,
  `AmbiguousMeansRepeatedIff`.
- *`verdict_for_row` is a faithful reimplementation* (`sweep_thresholds.py:7-11`,
  `28`). It has no lenient policy: an unresolved claim makes it answer
  INSUFFICIENT_EVIDENCE where the engine, as configured in
  `evaluate_with_graph.py:508-512`, answers CONSISTENT. On no claims the engine raises
  and it answers CONSISTENT. `LenientGapDiffers`, `FaithfulIff`.
- *A schema version can never read back another's completion*
  (`structured_cache.py:94-97`): false when one version continues another after a
  colon (`ColonInVersionCollides`), true exactly as `NamespacesCollideIff` says.
- *The inference cache answers by premise and hypothesis* (`nli/cache.py:55`): they are
  joined by a colon without escaping. `ColonMixesUp`, `TransparentIff`.
- *An event id is a hash of predicate, participants and anchor* (`identity.py:31-34`):
  of their joined text. `PredicateAbsorbsParticipant`, `PredicatesCollideIff`,
  `SameEventIff`.
- *A cache file reloads to the store* (`structured_cache.py:60-63`): an existing file
  whose last line lacks its newline is spoiled by the next put.
  `UnterminatedFileIsSpoiled`, `PutIsDurableIff`. After a crash inside the record of a
  put the next load raises, wherever it was cut: `TornPutLoadsIff`.

## Model

| member | source | states |
|---|---|---|
| `UnionFind.Find` | src/lncvs/graph/entity_resolution/merge.py:113-117 | the returned index is the root; path halving changes no class and `parent[i] <= i` is kept, so the loop ends |
| `UnionFind.Union` | src/lncvs/graph/entity_resolution/merge.py:120-129 | exactly the two classes become one, named by the smaller root; every other class keeps its root |
| `UnionFind.RedirectKeepsRoots` | src/lncvs/graph/entity_resolution/merge.py:113-117 | pointing any index at a lower member of its own class changes no root |
| `UnionFind.RootIsLeast` | src/lncvs/graph/entity_resolution/merge.py:120-129 | once every link has been acted on and nothing else merged, the root of an index is the least index chained to it, whatever the order of unions |
| `Merge.NormNameLoop` | src/lncvs/graph/entity_resolution/normalization.py:126-136 | the result is the token list with its longest leading run of titles removed |
| `Merge.CollectKeys` | src/lncvs/graph/entity_resolution/merge.py:302-326 | the key loops compute, for each mention, exactly the admitted keys with the surfaces that gave them, in order |
| `Merge.KeysAreCorroborated` | src/lncvs/graph/entity_resolution/merge.py:26-35 | every merge key is non-generic, non-empty and the normalized primary name of some mention of the corpus (clause A) |
| `Merge.PrimaryNameIsAKey` | src/lncvs/graph/entity_resolution/merge.py:302-321 | a mention's own non-generic primary name is always one of its keys |
| `MergePolicy.KeysIff` | src/lncvs/graph/entity_resolution/merge.py:302-326 | a mention bears a key iff some token of it is not generic, it is some mention's own normalized name, and the mention's name or one of its aliases normalizes to it; listed for it are exactly those surfaces, in order |
| `MergePolicy.QualifierTagIs` | src/lncvs/graph/entity_resolution/merge.py:157-184 | the tag comes from the words around the key: the sorted distinguishing words if there are any, otherwise male junior before senior before female unmarried before married, otherwise none |
| `MergePolicy.TagAtIs` | src/lncvs/graph/entity_resolution/merge.py:187-199 | a mention's tag for a key is that of its first surface that reads as the key and has one |
| `Merge.AnchorIsMostFrequent` | src/lncvs/graph/entity_resolution/merge.py:260-261 | the anchor tag is shown at least as often as any tag, the alphabetically first among equals |
| `Components.IndexKeys` | src/lncvs/graph/entity_resolution/merge.py:328-331 | a key maps to exactly the mentions holding it, in ascending order |
| `Components.DetectAmbiguousKeys` | src/lncvs/graph/entity_resolution/merge.py:202-232 | the three-way test on tag kinds flags exactly the weak keys that show two distinct tags |
| `MergePolicy.AmbiguousIff` | src/lncvs/graph/entity_resolution/merge.py:202-232 | a key is ambiguous iff it is one token or led by a particle and two mentions bear it under different tags |
| `Components.AnchorTag` | src/lncvs/graph/entity_resolution/merge.py:256-261 | counting groups and taking the first maximum of the sorted tags yields the anchor |
| `MergePolicy.AnchorTagIs` | src/lncvs/graph/entity_resolution/merge.py:256-261 | the anchor is the tag under which most mentions bear the key, the alphabetically first among equals |
| `Components.GroupBySide` | src/lncvs/graph/entity_resolution/merge.py:251-269 | anchor group first, then the minority groups, each holding exactly the mentions on its side; bare mentions side with the anchor |
| `Partition.MergeGroups` | src/lncvs/graph/entity_resolution/merge.py:265-281 | every group becomes one class, groups with a corroborating cross pair are joined, and nothing is joined that the policy does not link |
| `Partition.ResolveAmbiguousKeys` | src/lncvs/graph/entity_resolution/merge.py:235-281 | for every ambiguous key, in any iteration order, every step the policy allows has been taken and none it does not |
| `Partition.UnionPlainKeys` | src/lncvs/graph/entity_resolution/merge.py:335-340 | all holders of each unambiguous key share a class, and only linked mentions do |
| `Partition.ClassesAreChains` | src/lncvs/graph/entity_resolution/merge.py:284-348 | two mentions are in one component iff a chain of policy steps joins them: a shared plain key, or an ambiguous one on the same side or on sides corroborated by a second key |
| `MergePolicy.JoinsIff` | src/lncvs/graph/entity_resolution/merge.py:37-60 | two mentions are linked by a key both bear iff it is not ambiguous, or they are read under one tag, or two mentions read as they are share another key |
| `MergePolicy.ComponentIff` | src/lncvs/graph/entity_resolution/merge.py:284-348 | two mentions are in one component iff a chain of such links, said of names and aliases alone, joins them |
| `MergePolicy.AliasMerges` | src/lncvs/graph/entity_resolution/merge.py:322-326 | an alias that normalizes to another mention's specific name puts both in one component, unless the key is ambiguous |
| `Partition.ComputeComponents` | src/lncvs/graph/entity_resolution/merge.py:284-348 | the component list is one function of the ordered corpus, whatever order the ambiguous-key set is iterated in |
| `Partition.InputOrderIrrelevant` | src/lncvs/graph/entity_resolution/merge.py:70-74 | permuting the mentions changes nothing when content hashes are distinct |
| `Partition.PropagationChangesNothing` | src/lncvs/graph/entity_resolution/merge.py:210-222 | declaring ambiguous any further keys with at most one distinct tag leaves the component list identical |
| `Partition.AmbiguityOnlySplits` | src/lncvs/graph/entity_resolution/merge.py:37-60 | whatever is linked with more ambiguous keys is linked with fewer: clause B never causes a merge |
| `EntityResolution.SelectCanonicalName` | src/lncvs/graph/entity_resolution/merge.py:351-365 | the name returned outranks every other: more frequent, then earlier, then lexicographically first |
| `EntityResolution.CanonicalNameIsUnique` | src/lncvs/graph/entity_resolution/merge.py:351-353 | the tie-break chain leaves exactly one name |
| `EntityResolution.CanonicalNameIgnoresOrder` | src/lncvs/graph/entity_resolution/merge.py:351-365 | the canonical name does not depend on the order of the members |
| `EntityFacts.CanonicalNameWins` | src/lncvs/graph/entity_resolution/merge.py:351-365 | counted on the mentions: the name is carried by more of them than any other, or by as many and seen earlier, or as early and alphabetically first |
| `EntityResolution.SelectEntityType` | src/lncvs/graph/entity_resolution/merge.py:368-376 | the majority type when exactly one is most common, otherwise `OTHER` |
| `EntityFacts.MajorityTypeIs` | src/lncvs/graph/entity_resolution/merge.py:368-376 | counted on the mentions: the type more of them have than any other, or `OTHER` when none leads |
| `EntityResolution.MergeComponent` | src/lncvs/graph/entity_resolution/merge.py:379-389 | name and type as above, the id hashed from them, and exactly the members' spans, each once, in provenance order |
| `EntityResolution.ComponentsCover` | src/lncvs/graph/entity_resolution/merge.py:344-348 | the components hold exactly the mentions of the corpus |
| `EntityResolution.ResolveEntities` | src/lncvs/graph/entity_resolution/service.py:15-39 | entities are the merged components under the stable sort by id; a reference maps to the entity of the last component holding it |
| `EntityFacts.EntitiesAscend` | src/lncvs/graph/entity_resolution/service.py:37 | entities come in ascending order of ids |
| `EntityResolution.ReferencesResolve` | src/lncvs/graph/entity_resolution/models.py:25-29 | a local reference resolves iff some mention carries it, and then to the id of a returned entity |
| `EntityResolution.SpansAreKept` | src/lncvs/graph/entity_resolution/service.py:26-39 | the spans of all entities are exactly the spans of all mentions |
| `EntityResolution.OneIdPerComponent` | src/lncvs/graph/entity_resolution/service.py:31-35 | over a corpus whose window-local ids are unique, mentions joined by a chain of the merge policy resolve to one id |
| `Determinism.ResolutionIsUniqueIff` | src/lncvs/graph/entity_resolution/service.py:3-6 | entity resolution has one result iff no entity has two spans that share chunk and start |
| `Determinism.IdsAreUnique` | src/lncvs/graph/entity_resolution/service.py:26-39 | without that condition too: references resolve to the same ids and entities agree in all but the order of their spans |
| `Determinism.EqualIdsKeepOrder` | src/lncvs/graph/entity_resolution/service.py:37 | entities that share an id stay in the order of their components |
| `Namesakes.NamelessIsAlone` | src/lncvs/graph/entity_resolution/merge.py:302-321 | a mention with only generic surfaces is a component by itself |
| `Namesakes.NamesakesShareId` | src/lncvs/graph/entity_resolution/merge.py:379-389 | two such mentions of one name and type become two entities with one id |
| `Namesakes.SharedIdIff` | src/lncvs/graph/identity.py:11-19 | with the code's joined text, merged entities share an id iff they share name and type |
| `Canon.CanonicalizeWithOffsets` | src/lncvs/graph/provenance/canon.py:32-69 | text and offsets are those of the glyph list, of equal length; the two trimming loops remove nothing |
| `CanonWords.VisibleIsPlain` | src/lncvs/graph/provenance/canon.py:54-57 | a stretch without space is replaced character by character |
| `CanonWords.GapBecomesSpace` | src/lncvs/graph/provenance/canon.py:42-52 | any gap between two visible characters becomes one space |
| `CanonWords.SpaceBeforeVanishes` | src/lncvs/graph/provenance/canon.py:46-52 | space before the first visible character comes to nothing |
| `CanonWords.SpaceBehindVanishes` | src/lncvs/graph/provenance/canon.py:42-45 | nor does space at the end; with the two above this fixes the canonical form of every text |
| `CanonWords.PlainForms` | src/lncvs/graph/provenance/canon.py:21-29 | quotes, dashes and the ellipsis have the plain forms of the table, all other characters stay |
| `CanonWords.SpaceForms` | src/lncvs/graph/provenance/canon.py:42 | what counts as space, at its edges |
| `CanonWords.SeparatorStartsGap` | src/lncvs/graph/provenance/canon.py:43-50 | the offset of a separator is the first character of its gap |
| `Canon.OffsetsInOrder` | src/lncvs/graph/provenance/canon.py:32-38 | every offset is a valid raw index and offsets never decrease |
| `Canon.CanonIsCanonical` | src/lncvs/graph/provenance/canon.py:7-8 | a canonical text has no smart character, no other whitespace than single inner spaces |
| `Canon.CanonIdempotent` | src/lncvs/graph/provenance/canon.py:32-69 | canonicalizing twice is canonicalizing once |
| `Canon.SliceOfMatch` | src/lncvs/graph/provenance/canon.py:34-38 | re-canonicalizing the raw characters behind a canonical stretch gives that stretch, widened at each end by at most two dots of a split ellipsis |
| `Matching.TokenizeWithSpans` | src/lncvs/graph/provenance/matching.py:48-62 | the tokens are exactly the maximal space-free runs, with their spans, in order |
| `Matching.FuzzyMatch` | src/lncvs/graph/provenance/matching.py:65-96 | an alignment is returned iff it clears the threshold, no other comes within the margin, and it is the first of the best; otherwise none; the score counts the positions with equal tokens |
| `Matching.ResolveQuote` | src/lncvs/graph/provenance/matching.py:99-127 | the three tiers in order, with the first exact occurrence and its raw span |
| `Matching.ExactIffOccurs` | src/lncvs/graph/provenance/matching.py:106-116 | EXACT iff the canonical quote is non-empty and occurs in the canonical window |
| `Matching.FirstOccurrenceUsed` | src/lncvs/graph/provenance/matching.py:111-113 | of several occurrences the first is used |
| `Matching.FuzzyIff` | src/lncvs/graph/provenance/matching.py:77-127 | FUZZY iff the canonical quote occurs nowhere and some alignment agrees in at least `threshold` of its tokens, at least `margin` of them ahead of every other, counted as sets of positions; that alignment's span is returned |
| `Matching.ResolutionIsUnique` | src/lncvs/graph/provenance/matching.py:9 | resolution is a function of quote, window and thresholds |
| `Matching.ExactRoundTrip` | src/lncvs/graph/provenance/matching.py:109-116 | the returned raw slice canonicalizes to the quote plus at most two dots on each side |
| `Matching.ExactRoundTripWithoutDots` | src/lncvs/graph/provenance/matching.py:109-116 | a quote with no dot at its ends comes back exactly |
| `Matching.AmbiguousMeansDisjoint` | src/lncvs/graph/provenance/matching.py:33-34 | an exact match is flagged ambiguous iff the quote has two occurrences that do not overlap |
| `Ambiguity.AmbiguousMeansRepeatedIff` | src/lncvs/graph/provenance/matching.py:33-34 | the flag means two different occurrences, in every window, exactly for the quotes whose canonical form has no border (an end that is also its beginning) |
| `Ambiguity.CountsEveryRepeatIff` | src/lncvs/graph/provenance/matching.py:109-116 | the same of `str.count` over all texts |
| `Ambiguity.AmbiguousIsRepeated` | src/lncvs/graph/provenance/matching.py:33-34 | a flagged quote always occurs at two different places |
| `Ambiguity.OverlapIsNotFlagged` | src/lncvs/graph/provenance/matching.py:33-34 | the quote `aa` occurs twice in `aaa` and is not flagged |
| `Matching.PerfectAlignmentOccurs` | src/lncvs/graph/provenance/matching.py:109-116 | an alignment without mismatch would have been an exact occurrence |
| `Matching.FuzzyHasMismatch` | src/lncvs/graph/provenance/matching.py:118-127 | a FUZZY result has at least one mismatched token, so `n * (1 - threshold) >= 1` |
| `Matching.FuzzySliceIsItsTokens` | src/lncvs/graph/provenance/matching.py:86-96 | the alignment is the unique best, and its raw slice canonicalizes to exactly those window tokens |
| `Matching.SpansAreNonEmpty` | src/lncvs/graph/provenance/matching.py:29-36 | every accepted span is a non-empty stretch of the window |
| `Chunking.ChunkDocument` | src/lncvs/chunking/chunker.py:20-45 | the loop ends; chunks start at 0, step by `size - overlap`, and stop at the first to reach the end |
| `Chunking.ExactOverlap` | src/lncvs/chunking/chunker.py:12-45 | consecutive chunks share exactly `overlap` characters |
| `Chunking.TextIsRecovered` | src/lncvs/chunking/chunker.py:12-45 | appending each later chunk without its first `overlap` characters gives back the text |
| `Chunking.SpansFitIff` | src/lncvs/chunking/chunker.py:20-45 | every span of a length lies whole in some chunk iff it exceeds the overlap by at most one or the text is one chunk |
| `Chunking.EveryPositionIsChunked` | src/lncvs/chunking/chunker.py:20-45 | every character is in some chunk |
| `Chunking.ChunksOverlappingAnySpan` | src/lncvs/chunking/span_overlap.py:27-32 | exactly the ids of chunks that overlap some span |
| `Provenance.ResolveFact` | src/lncvs/graph/provenance/service.py:22-65 | rejected when no span comes of its matches, otherwise resolved with exactly their clipped spans, each once, in the stable `(chunk_id, char_start)` order of first insertion |
| `Provenance.ResolveWindow` | src/lncvs/graph/provenance/service.py:68-119 | raises iff there are no chunks; otherwise every fact gets its verdict, in order |
| `Provenance.TrustBoundary` | src/lncvs/graph/provenance/service.py:6-11 | over chunks of the same text: rejected iff every quote failed; each span non-empty and inside its chunk; together the spans cover exactly the matched characters |
| `Provenance.SortedSetIsDeterministicIff` | src/lncvs/graph/construction/service.py:30-32 | sorting a set of spans by `(chunk_id, char_start)` is one list in every iteration order iff no two spans share that key |
| `Provenance.SharedStart` | src/lncvs/graph/construction/service.py:30-32 | a fact with the quotes `a` and `ab` gets two spans with one key, and the set of them two sorted listings |
| `Provenance.FactResolutionIsUnique` | src/lncvs/graph/provenance/service.py:22-65 | the resolution of a fact, order of spans included, is a function of its inputs, and so is the anchor of an event |
| `Provenance.ChunkIdsAreUnique` | src/lncvs/chunking/chunker.py:48-50 | with an injective hash, different chunks have different ids |
| `EntityGraphs.EntityGraph.UpsertEntity` | src/lncvs/graph/builder.py:44-68 | a new name gets a record and an id, a known one at most one more span; all other names and all edges stay |
| `EntityGraphs.EntityGraph.UpsertRelation` | src/lncvs/graph/builder.py:70-97 | raises iff the ends are equal, changing nothing; otherwise one more observation of the pair and of no other |
| `EntityGraphs.EntityGraph.NeighborRelations` | src/lncvs/graph/builder.py:162-166 | exactly the relations touching the entity, ordered by `(subject, object)` |
| `EntityGraphs.BuildEntityGraph` | src/lncvs/graph/builder.py:175-192 | the graph built over chunks with distinct spans is the one the direct counts describe |
| `EntityGraphs.EntityAgreesWithCount` | src/lncvs/graph/builder.py:175-182 | a name has a node iff some chunk mentions it, with exactly the spans of those chunks |
| `EntityGraphs.EdgeAgreesWithCount` | src/lncvs/graph/builder.py:189-190 | two names are adjacent iff some chunk mentions both; weight, provenance length and number of such chunks agree, and subject id precedes object id |
| `NeighbourOrder.NeighboursAscendIff` | src/lncvs/graph/builder.py:162-166 | the list ascends by the neighbour's id iff no edge into the entity is out of place against an edge out of it: the condition on each such pair, from the ids alone |
| `NeighbourOrder.ForwardEdgesAscend` | src/lncvs/graph/builder.py:163-164 | it always ascends where every edge points from the smaller id to the larger |
| `NeighbourOrder.BuiltNeighboursAscend` | src/lncvs/graph/builder.py:163-164 | so it ascends at every entity of a graph built from chunks |
| `NeighbourOrder.BackwardEdgeBreaksOrder` | src/lncvs/graph/builder.py:163-164 | a graph with an edge to `b` from `c` and one from `b` to `z` lists `z` before `c` |
| `Traversal.ScoreChunks` | src/lncvs/graph/traversal.py:29-91 | the scores are the layered closed form, whatever order dicts and sets are iterated in, and name exactly the chunks of reached entities |
| `Traversal.WithinMeansWalk` | src/lncvs/graph/traversal.py:52-55 | the set reached in `k` hops is the set with a walk of at most `k` edges from the entries |
| `Traversal.LayersAreDisjoint` | src/lncvs/graph/traversal.py:52-54 | an entity contributes at one hop only |
| `Traversal.ScoreByDistance` | src/lncvs/graph/traversal.py:29-44 | for distinct entries a score is the sum over entities within `max_hops` of `w / (1 + d)` times their count in the chunk, `d` the shortest distance, `w` the weight of the edge from the smallest-id nearer neighbour |
| `ScoreTerms.TermMeans` | src/lncvs/graph/traversal.py:29-91 | what one entity adds: the number of its spans that name the chunk, times the weight of the edge to the alphabetically first entity one step nearer, over one plus the length of the shortest walk; an entry adds its number alone |
| `Traversal.ScoresGrow` | src/lncvs/graph/traversal.py:66-91 | more hops never lower a score, however many more |
| `Traversal.ResolveEntries` | src/lncvs/graph/traversal.py:16-26 | the known ids of the query's mentions, each once, in order of first mention |
| `Traversal.RankChunks` | src/lncvs/graph/traversal.py:94-98 | the `top_k` best, each once, all of them when there are no more: scores descend, equal scores go by chunk id, and nothing left out has a higher score or an equal one and an earlier id |
| `Traversal.BuiltIsTraversable` | src/lncvs/graph/builder.py:175-192 | every node of a built graph has a record |
| `Segmentation.SnapToParagraphBreak` | src/lncvs/graph/segmentation.py:103-122 | the first of the paragraph breaks nearest to the offset inside the radius, or the offset itself |
| `WindowNumbers.SnapIs` | src/lncvs/graph/segmentation.py:109-122 | searched are `4 * tolerance` characters on either side; of the breaks ending there the first that no other is nearer than is taken, and without one the offset itself |
| `WindowNumbers.BreaksAre` | src/lncvs/graph/segmentation.py:113-117 | breaks are line end, blanks or tabs, line end, taken from the left: each end listed is one, and each break ends at a listed end or overlaps one before it |
| `Segmentation.ComputeWindowBoundaries` | src/lncvs/graph/segmentation.py:125-167 | the loop ends; windows step by `max - overlap` tokens, each ends at its snapped end if that fits the budget and at its raw end otherwise, the last at the end of the text |
| `Segmentation.WindowCount` | src/lncvs/graph/segmentation.py:137-167 | an over-budget text yields `1 + ceil((total - max) / (max - overlap))` windows |
| `Segmentation.NoGapsWhenTokensAreLong` | src/lncvs/graph/segmentation.py:128-132 | windows leave no gap when every `overlap` consecutive tokens span the radius less two characters |
| `Segmentation.GapsAreShort` | src/lncvs/graph/segmentation.py:144-158 | in any text a gap has at most `4 * tolerance - overlap - 2` characters |
| `Segmentation.NoGapsIff` | src/lncvs/graph/segmentation.py:131-132 | "no gaps" holds for all texts and all lossless tokenizers iff `4 * tolerance <= overlap + 2` |
| `Segmentation.ShippedBudgetsCanLeaveGaps` | src/lncvs/graph/segmentation.py:30-35 | the shipped budgets fail that condition: some text and tokenizer leave a gap |
| `Segmentation.WindowsStartInOrder` | src/lncvs/graph/segmentation.py:138-165 | windows start in ascending order, whatever the budget, text and tokenizer |
| `Segmentation.WindowsAreProper` | src/lncvs/graph/segmentation.py:141-160 | windows are non-empty and end inside the text when every overlap is long enough in characters, and in every text when the radius exceeds the budget by at most one |
| `Segmentation.NonEmptyIff` | src/lncvs/graph/segmentation.py:79-83 | every window of every non-empty text is one an extraction window accepts, for all lossless tokenizers, iff `4 * tolerance <= max + 1` |
| `TokenBudget.WithinBudgetIff` | src/lncvs/graph/segmentation.py:148-152 | every window of every text and budget re-tokenizes to at most `max` tokens iff tokenizing any run of consecutive tokens by itself never gives more of them |
| `TokenBudget.EveryBudgetCanOverrun` | src/lncvs/graph/segmentation.py:128-132 | without that, for every budget some lossless tokenizer and text make a window of `max + 1` tokens |
| `Segmentation.BuildChapterSpans` | src/lncvs/graph/segmentation.py:182-195 | a preamble if text precedes the first heading, then one chapter per heading up to the next |
| `Segmentation.ChaptersPartition` | src/lncvs/graph/segmentation.py:182-195 | chapters are numbered in order and partition the text into non-empty spans |
| `WindowNumbers.ChapterStartsIff` | src/lncvs/graph/segmentation.py:182-195 | a chapter starts at every heading and at the beginning of the text, and nowhere else |
| `Segmentation.DetectChapters` | src/lncvs/graph/segmentation.py:170-179 | the first pattern with at least three headings decides; none, no chapters |
| `Segmentation.SegmentIntoExtractionWindows` | src/lncvs/graph/segmentation.py:198-274 | raises iff the text is empty; otherwise exactly the windows of each chapter in turn, numbered, or without chapters the fallback windows; non-empty, ordered by start, and covering the text when tokens are long in every span cut |
| `WindowNumbers.NumberedAre` | src/lncvs/graph/segmentation.py:213-240 | a chapter that is one window keeps its span and has no window number; of several each has its position and its own span within the chapter |
| `WindowNumbers.WindowsDiffer` | src/lncvs/graph/segmentation.py:198-274 | no two windows of a text share chapter and window number, on which every local reference rests |
| `Segmentation.CoversEveryPosition` | src/lncvs/graph/segmentation.py:259-263 | gap-free windows contain every position of the text |
| `Construction.Arrange` | src/lncvs/graph/construction/service.py:30-32 | the sorted tuple of a set holds each span once, in `(chunk_id, char_start)` order, whatever the set's order |
| `GraphFacts.SpansAscend` | src/lncvs/graph/construction/service.py:30-32 | chunk ids ascend, and starts within a chunk |
| `Construction.BuildRelations` | src/lncvs/graph/construction/service.py:35-92 | one relation per (subject, object, type) in order of first appearance, built from exactly its facts; the rest rejected with the reason |
| `Construction.RelationIsSound` | src/lncvs/graph/construction/service.py:46-90 | a relation joins two different resolved entities, carries exactly the spans of its facts, and weighs the number of distinct chunks |
| `Construction.RelationFactUsedOnce` | src/lncvs/graph/construction/service.py:41-76 | a fact is rejected iff it has no edge, otherwise its edge is there, once |
| `GraphFacts.RelationIsTold` | src/lncvs/graph/construction/service.py:41-90 | over the reference map: every relation is told by a fact, its subject as subject and its object as object; its spans are those of exactly the facts that tell it, and it weighs the number of chunks they name |
| `GraphFacts.ToldIsRelation` | src/lncvs/graph/construction/service.py:70-90 | whatever a fact tells is a relation, once |
| `GraphFacts.QuarantinedIff` | src/lncvs/graph/construction/service.py:46-68 | a fact is rejected as dangling iff an end is unknown, as a self-relation iff both ends are one entity |
| `Construction.RelationFactsConserved` | src/lncvs/graph/construction/service.py:38-92 | group sizes and rejections add up to the facts given |
| `Construction.BuildEvents` | src/lncvs/graph/construction/service.py:95-164 | one event per id with the canonical fact's wording and all spans; one participation per event, entity and role named, in the order first met, with exactly the spans of the facts naming it; dangling facts rejected |
| `Construction.EventFactUsedOnce` | src/lncvs/graph/construction/service.py:101-128 | a fact is rejected iff a participant dangles, otherwise it belongs to exactly one event, which holds its spans |
| `GraphFacts.EventQuarantinedIff` | src/lncvs/graph/construction/service.py:106-123 | an event fact is rejected iff a participant is unknown |
| `GraphFacts.EventIsWorded` | src/lncvs/graph/construction/service.py:125-144 | over predicates, resolved participants in ascending order and first spans: an event is worded as the first of its facts by chapter, window and local id, and holds exactly their spans |
| `GraphFacts.ParticipationIff` | src/lncvs/graph/construction/service.py:146-162 | an entity has a role in an event iff a fact of that event names it so, and the participation holds exactly the spans of those facts |
| `Construction.EventIsSound` | src/lncvs/graph/construction/service.py:133-144 | every event comes of a fact, and its spans are exactly those of its facts |
| `Construction.ParticipationIsSound` | src/lncvs/graph/construction/service.py:146-162 | a participation is of a resolved entity and a returned event, weighs the number of distinct chunks, and its spans are spans of that event |
| `Construction.EventFactsConserved` | src/lncvs/graph/construction/service.py:98-164 | group sizes and rejections add up to the facts given |
| `Construction.EventIdentity` | src/lncvs/graph/identity.py:29-37 | facts share an event iff they agree on predicate, participating entities as a multiset, and anchor |
| `Identities.SameEventIff` | src/lncvs/graph/identity.py:30-37 | over the joined text that is really hashed: facts share an event iff anchors agree and predicate and sorted participants join to one text |
| `Identities.ColonFreePredicates` | src/lncvs/graph/identity.py:35-36 | for predicates without a colon that is the same predicate and the same participants |
| `Identities.PredicatesCollideIff` | src/lncvs/graph/identity.py:35-36 | two predicates can be hashed as one event, with suitable participants, iff the longer is the shorter followed by the sorted ids of some |
| `Identities.PredicateAbsorbsParticipant` | src/lncvs/graph/identity.py:35-36 | whatever the ids `a` and `b`, the event `met:a` of `b` and the event `met` of `a` and `b` have one id |
| `Records.FromRecords` | src/lncvs/graph/builder.py:100-153 | nodes are the last record per id; a pair's edge is its lone relation, or one merged edge with the first type, summed weight and united spans |
| `RecordFacts.RecordIsLast` | src/lncvs/graph/builder.py:103-107 | the record at an id is the last one given with it |
| `RecordFacts.NameLeadsToLast` | src/lncvs/graph/builder.py:103-107 | a name leads, letter case aside, to the last record given with it |
| `RecordFacts.EdgeTypeIsFirst` | src/lncvs/graph/builder.py:117-151 | an edge has the ends and type of one of its relations, the type not after any other's |
| `Records.AssembledIsWellFormedIff` | src/lncvs/graph/builder.py:103-107 | every node the traversal can meet has a record iff every relation joins known entities |
| `Records.PairIsKept` | src/lncvs/graph/builder.py:112-115 | per unordered pair, the edge has all the weight and exactly the spans of its relations |
| `Records.TotalWeightIsKept` | src/lncvs/graph/builder.py:127-151 | the whole graph's edge weight is the relations' total weight |
| `NovelGraph.ResolveFacts` | src/lncvs/graph/provenance/service.py:92-108 | the resolved facts of a window, in order, each resting on non-empty parts of real chunks |
| `NovelFacts.CollectedAre` | src/lncvs/graph/construction/pipeline.py:43-84 | collected is exactly what the extractor gave for the text, chapter and number of some window, where its quotes resolve, with the spans they resolve to |
| `NovelFacts.MentionIsSeen` | src/lncvs/graph/entity_resolution/service.py:15-39 | a mention is seen by the merge policy under its own name, aliases, type, window, local id and spans |
| `NovelFacts.EntitiesAreNamed` | src/lncvs/graph/construction/pipeline.py:29-97 | every entity is called by the name of a collected mention, and every mention's local id stands for an entity |
| `NovelGraph.BuildGraphForNovel` | src/lncvs/graph/construction/pipeline.py:29-97 | fails iff the text is empty; a window whose extraction raised adds nothing; whatever was extracted, entities, relations, events and participations rest on real chunks, every end is a returned entity or event, weights count chunks and are positive, and every node has a record |
| `Determinism.BuildIsDeterministicIff` | src/lncvs/graph/construction/pipeline.py:29-36 | the content built for a novel, from cutting windows to participations, is one iff no record of it has two spans that share chunk and start |
| `Determinism.ConstructionIsUniqueIff` | src/lncvs/graph/construction/service.py:30-32 | the same from given facts on |
| `Determinism.GraphIsUniqueIff` | src/lncvs/graph/builder.py:127-151 | the traversal graph of given records is one iff no edge merged from parallel relations has two such spans |
| `Fingerprint.FingerprintOrderFreeIff` | src/lncvs/graph/construction/fingerprint.py:4-9 | the fingerprint is the same for every order of the four collections iff records with one sort key have lines whose order does not show |
| `Fingerprint.ConstructedFingerprintIff` | src/lncvs/graph/construction/fingerprint.py:4-9 | for a constructed graph with one-line names: iff entities that share an id have one line, so one name, type and list of spans as written |
| `Fingerprint.NamesakeOrderShows` | src/lncvs/graph/construction/fingerprint.py:25-27 | two namesakes of one id, mentioned in different chunks, give two fingerprints |
| `NovelGraph.GraphIndex.LoadGraph` | src/lncvs/graph/index.py:53-73 | raises iff there are no chunks, changing nothing; otherwise the graph and the chunk map are set |
| `NovelGraph.GraphIndex.Index` | src/lncvs/graph/index.py:38-51 | raises iff there are no chunks; otherwise the G1 graph, fit for its chunks |
| `NovelGraph.GraphIndex.Query` | src/lncvs/graph/index.py:75-109 | raises iff `top_k < 1`, nothing is built or a ranked chunk is not loaded; otherwise the closed-form best chunks of the query's entities, by descending score and ascending id, each once and cited in full: `top_k` of them, or every chunk with a score. Over the chunks the graph rests on no lookup fails |
| `NovelGraph.DocumentChunksFit` | src/lncvs/chunking/chunker.py:20-50 | the chunks of a document have distinct ids and spans, as both ways of filling an index need |
| `NovelGraph.ScoredIsKnown` | src/lncvs/graph/index.py:9-11 | over the chunks the graph rests on, every chunk that can be scored is in the chunk map |
| `Rules.Classify` | src/lncvs/rules/classification.py:27-98 | statuses, findings and unsupported claims are those of the specification, claim by claim in order |
| `Rules.TraceIsRecorded` | src/lncvs/rules/classification.py:34-38 | recorded are exactly the contradictions of listed claims, the supports of listed claims that are not contradicted, and the unresolved claims |
| `Verdicts.StatusesAre` | src/lncvs/rules/classification.py:54-95 | over the fields of the results: contradicted iff some result of the claim is a contradiction at or above its threshold, supported iff none is and some is an entailment at or above its own, otherwise unresolved |
| `Verdicts.RecordedAre` | src/lncvs/rules/classification.py:64-93 | recorded are exactly the contradictions at or above their threshold, and the entailments at or above theirs that no contradiction overrides, with chunk and score, and the unresolved claims |
| `Rules.Evaluate` | src/lncvs/rules/threshold_engine.py:30-72 | raises iff there are no claims; otherwise the verdict of the specification |
| `Rules.ContradictoryIff` | src/lncvs/rules/threshold_engine.py:22-27 | CONTRADICTORY iff a listed claim has a contradiction at or above the threshold, iff the recorded contradictions are non-empty |
| `Rules.GapIff` | src/lncvs/rules/threshold_engine.py:52-72 | INSUFFICIENT_EVIDENCE iff strict, nothing contradicted and a claim unresolved; CONSISTENT in all remaining cases |
| `Verdicts.VerdictIs` | src/lncvs/rules/threshold_engine.py:30-72 | over the fields: contradictory iff a claim is contradicted; insufficient iff strict, none contradicted and one not entailed; consistent iff none contradicted and, when strict, all entailed |
| `Verdicts.ClaimsNamed` | src/lncvs/rules/threshold_engine.py:37-72 | the verdict names exactly the contradicted and the unresolved claims, each once, and the rule that fired |
| `Rules.StrictConsistency` | src/lncvs/rules/threshold_engine.py:22-24 | under the strict policy a consistent verdict means every claim is entailed and none contradicted |
| `Rules.ResultOrderIrrelevant` | src/lncvs/rules/threshold_engine.py:30-42 | permuting the NLI results changes nothing in the verdict or its lists |
| `Rules.ContradictionIsMonotone` | src/lncvs/rules/classification.py:34-36 | a higher contradiction threshold or fewer results never create CONTRADICTORY |
| `Rules.ConsistencyIsMonotone` | src/lncvs/rules/classification.py:55-59 | a higher entailment threshold never creates CONSISTENT |
| `Rules.VerdictForRow` | scripts/sweep_thresholds.py:27-44 | over the labels and scores of the rows: contradictory iff some claim has a contradiction at or above its threshold, consistent iff none has and each has an entailment at or above its own |
| `Rules.FaithfulIff` | scripts/sweep_thresholds.py:27-44 | for every configuration: the offline verdict is the engine's iff there is a claim and the policy is strict, or some claim is contradicted, or none is unresolved; where they differ the engine raises or is CONSISTENT |
| `Rules.LenientGapDiffers` | scripts/sweep_thresholds.py:40-44 | one claim without results under the lenient policy: CONSISTENT from the engine, INSUFFICIENT_EVIDENCE offline |
| `Fusion.FuseEvidence` | src/lncvs/fusion/rrf.py:17-73 | raises iff some record is unstamped; otherwise the fusion of the specification under the RRF score |
| `Fusion.RoundRobinFuse` | src/lncvs/orchestration/fusion_baselines.py:27-77 | the same under the best-rank score |
| `Fusion.OneRecordPerPair` | src/lncvs/fusion/rrf.py:37-66 | exactly one record per (claim, chunk) pair of the evidence, scored by that pair's records alone |
| `FusionFacts.FusedFields` | src/lncvs/fusion/rrf.py:41-66 | a fused record has the text of the first record of its pair, its score from exactly the pair's records, and each of their sources and queries once |
| `FusionFacts.OneMoreContribution` | src/lncvs/fusion/rrf.py:43 | each record adds `1 / (k + rank)` to its pair |
| `FusionFacts.BaselineScoreIs` | src/lncvs/orchestration/fusion_baselines.py:44-66 | the baseline score is `1 / (1 + rank)` of the record ranked first |
| `Fusion.ScoreIsConserved` | src/lncvs/fusion/rrf.py:20-22 | before the cap the scores add up to `1 / (k + rank)` over all evidence |
| `Fusion.SectionIsTop` | src/lncvs/fusion/rrf.py:68-71 | a claim's part of the result is the top of its own records |
| `FusionFacts.ClaimByClaim` | src/lncvs/fusion/rrf.py:37-73 | the result goes claim by claim in the order in which the evidence first mentions them |
| `FusionFacts.SectionIsBest` | src/lncvs/fusion/rrf.py:68-71 | scores descend, equal ones go by chunk id; at most `top_k_fused`, and as many when one is left out, which is then behind all kept |
| `Fusion.DroppedAreWorse` | src/lncvs/fusion/rrf.py:22-24 | nothing is dropped below the cap, and no dropped record beats a kept one |
| `Fusion.InputOrderIrrelevant` | src/lncvs/fusion/rrf.py:20-24 | reordering the evidence changes neither the scores nor the chunks kept nor their order |
| `Fusion.BaselineAgrees` | src/lncvs/orchestration/fusion_baselines.py:16-19 | when each pair has one contribution, RRF and round robin keep the same chunks in the same order |
| `Fusion.FusedIsRetrieved` | src/lncvs/fusion/rrf.py:37-66 | every fused record is of a retrieved (claim, chunk) pair |
| `Ledgers.LedgerService.RecordAtomicClaims` | src/lncvs/ledger/service.py:49-64 | write-once; raises without a change, otherwise exactly the claims and one log entry are added |
| `Ledgers.LedgerService.RecordProbeQuestions` | src/lncvs/ledger/service.py:71-103 | accepted iff none are recorded and every claim is known; otherwise nothing changes |
| `Ledgers.LedgerService.RecordRetrievalQueries` | src/lncvs/ledger/service.py:105-134 | accepted iff none are recorded and every claim is known; otherwise nothing changes |
| `Ledgers.LedgerService.RecordRetrievedEvidence` | src/lncvs/ledger/service.py:136-173 | accepted iff none is recorded and every record is stamped with a known claim and query; otherwise nothing changes |
| `Ledgers.LedgerService.RecordFusedEvidence` | src/lncvs/ledger/service.py:188-224 | accepted iff none is recorded and every pair was retrieved for a known claim; otherwise nothing changes |
| `Ledgers.LedgerService.RecordNliResults` | src/lncvs/ledger/service.py:226-256 | accepted iff none are recorded and every pair was fused for a known claim; otherwise nothing changes |
| `Ledgers.LedgerService.RecordClassificationRecords` | src/lncvs/ledger/service.py:258-295 | accepted iff none is recorded and every claim is known; otherwise nothing changes |
| `Ledgers.LedgerService.SetFinalVerdict` | src/lncvs/ledger/service.py:336-347 | accepted iff there is no verdict; otherwise nothing changes |
| `Ledgers.EveryRunIsChained` | src/lncvs/ledger/service.py:136-256 | after any sequence of calls, raising ones included, NLI pairs are fused, fused pairs retrieved, and those of recorded claims and queries |
| `LedgerFacts.AcceptedMeans` | src/lncvs/ledger/service.py:49-347 | what each call demands, said of the records already there |
| `LedgerFacts.AddedOnly` | src/lncvs/ledger/service.py:49-347 | an accepted call writes its own part and one log entry, nothing else |
| `LedgerFacts.ChainMeans` | src/lncvs/ledger/service.py:136-256 | after any sequence of calls each result has its fused record, each fused record its retrieved one, each retrieved one its query, and all their claim |
| `Ledgers.WrittenOnce` | src/lncvs/ledger/service.py:1-8 | what is written stays as written for the rest of any run, and the log only grows |
| `Ledgers.RepeatRefusedIff` | src/lncvs/ledger/service.py:80-85 | a repeated call is refused iff the first one wrote something; claims and the verdict always |
| `Stages.BuildRetrievalQueries` | src/lncvs/retrieval/query_builder.py:12-55 | the deduplicating loops compute the query list of the specification |
| `Stages.QueriesServe` | src/lncvs/retrieval/query_builder.py:15-21 | query ids are distinct, each query serves a claim or a question, and the query of every claim and question is there |
| `RunFacts.QuestionsIff` | src/lncvs/orchestration/nodes.py:125-138 | questions are exactly what the generator returns for each claim, in its name, when they are switched on |
| `RunFacts.QueryAsks` | src/lncvs/retrieval/query_builder.py:12-55 | a query asks the text of a claim or of a question, for its claim, under the hash of just that |
| `Stages.RetrieveForQueries` | src/lncvs/retrieval/orchestrator.py:35-61 | raises iff a retriever raises; otherwise all results, stamped, in order |
| `Stages.RetrievedIsServed` | src/lncvs/retrieval/orchestrator.py:46-59 | every retrieved record names a query of the list and that query's claim |
| `RunFacts.RetrievedIff` | src/lncvs/retrieval/orchestrator.py:35-61 | retrieved is exactly what some retriever returns for the text of some query, stamped with query, claim and a new id and otherwise unchanged |
| `RunFacts.RetrieversAre` | src/lncvs/orchestration/nodes.py:141-158 | asked are the semantic retriever and, when switched on, the lexical one |
| `Stages.Verify` | src/lncvs/evaluation/runner.py:165-174 | each claim is verified against exactly its own fused records |
| `Stages.VerifiedIsFused` | src/lncvs/reasoning/nli/service.py:38-52 | verification cites only fused pairs of listed claims |
| `Stages.EveryFusedIsVerified` | src/lncvs/reasoning/nli/service.py:38-52 | every fused record of a listed claim gets the model's answer, premise the evidence, hypothesis the claim |
| `RunFacts.VerifiedIff` | src/lncvs/reasoning/nli/service.py:38-52 | results are exactly the model's answers on each claim's fused records |
| `Stages.VerificationFailsIff` | src/lncvs/evaluation/runner.py:165-174 | it raises iff the model raises on some fused record of a listed claim |
| `NliCache.CachingNliModel.Predict` | src/lncvs/reasoning/nli/cache.py:67-76 | a hit is answered from the store; a miss asks the model once and files what it returns, nothing when it raises |
| `NliCache.TransparentIff` | src/lncvs/reasoning/nli/cache.py:78-80 | whatever the model, every call of a run is answered as the model would, iff no two different calls of the run join to one text |
| `NliCache.ColonFreePremises` | src/lncvs/reasoning/nli/cache.py:78-80 | premises without a colon never mix up |
| `NliCache.ColonMixesUp` | src/lncvs/reasoning/nli/cache.py:78-80 | two different calls that do |
| `NliCache.FingerprintsNeverShare` | src/lncvs/reasoning/nli/cache.py:57-59 | a prediction made under one configuration is never read back under another |
| `Pipeline.GraphMachine.RunNode` | src/lncvs/orchestration/nodes.py:59-84 | a node either advances the stage or records one error at its stage; what it wrote before raising stays |
| `Pipeline.GraphMachine.RetrieveNode` | src/lncvs/orchestration/nodes.py:141-158 | queries are recorded before the retrievers run and stay when one raises |
| `Pipeline.GraphMachine.VerdictNode` | src/lncvs/orchestration/nodes.py:194-207 | the trace is recorded, then the verdict, which fails on no claims |
| `Pipeline.GraphMachine.Invoke` | src/lncvs/orchestration/graph.py:35-78 | driving the nodes along the edges ends in the state of the specification |
| `Pipeline.GraphMachine.Run` | src/lncvs/orchestration/graph.py:97-127 | raises on a recorded error or a missing verdict, otherwise returns the ledger |
| `Pipeline.RunStraight` | src/lncvs/evaluation/runner.py:109-163 | the straight-line run, on local variables, gives the node machine's ledger, or raises at the stage of its error |
| `RunProperties.NoOutputIsRejected` | src/lncvs/orchestration/nodes.py:112-207 | a stage fails iff a model or backend raises in it, or there is no claim to judge: the ledger rejects no stage's output |
| `RunProperties.EveryRunEndsWell` | src/lncvs/orchestration/graph.py:118-127 | every run ends COMPLETE with no errors, each part of the ledger computed from the earlier ones and the verdict from its results, or ERROR with exactly one error, at the first stage where a call raised, and no verdict |
| `RunProperties.RunBoth` | src/lncvs/orchestration/nodes.py:1-5 | runner and machine side by side: same final ledger when nothing raises, same stage when something does |
| `RunProperties.ContradictionsAreTraced` | src/lncvs/ledger/service.py:136-256 | every recorded contradiction traces to a retrieved record whose query serves its claim |
| `RunProperties.VerdictOfPredictions` | src/lncvs/rules/threshold_engine.py:22-27 | a completed run is CONTRADICTORY iff, for some claim of the decomposition, the model calls a fused record of that claim a contradiction at or above the threshold |
| `RunFacts.FusedAsConfigured` | src/lncvs/orchestration/nodes.py:161-173 | in a judged run every fused record is scored as configured from the retrieved records of its pair, and no claim has more than the configured number |
| `RunFacts.JudgedOfModel` | src/lncvs/rules/classification.py:54-95 | a claim of a judged run is contradicted, or entailed, iff the model labels one of its fused records so at or above the threshold |
| `RunProperties.VerdictAgreesWithTrace` | src/lncvs/rules/threshold_engine.py:8-11 | in a judged ledger the verdict is CONTRADICTORY iff a contradiction is recorded |
| `FactVerification.FindChunkContainingQuote` | src/lncvs/reasoning/fact_verification/llm_verifier.py:144-148 | the chunk of the first record in which the quote occurs canonically, or none |
| `FactVerification.ToFactVerification` | src/lncvs/reasoning/fact_verification/llm_verifier.py:96-142 | accepted iff a verdict other than NOT_MENTIONED cites something and every quote occurs in some record; anchored at the first quote's chunk |
| `FactVerification.VerifySet` | src/lncvs/reasoning/fact_verification/llm_verifier.py:76-94 | returns iff there is no evidence or the model's verdict cites what it must and every quote occurs in it; then exactly that verdict, anchored at its first quote's chunk |
| `FactVerification.VerifyClaims` | scripts/evaluate_with_graph.py:271-278 | the loop over all claims returns iff every claim's own evidence can be verified, and then every claim's verdict in order |
| `FactVerification.ResultsAreAccepted` | scripts/evaluate_with_graph.py:274-278 | the ledger that holds the claims and their fused evidence accepts the results of all claims at once |
| `FactVerification.FindingsRestOnQuotes` | src/lncvs/reasoning/fact_verification/llm_verifier.py:31-37 | after that loop every recorded contradiction and support is the model's verdict on a claim of the ledger, every quote of it occurs in that claim's fused evidence, and the first in the cited chunk |
| `FactVerification.VerdictOfModel` | scripts/evaluate_with_graph.py:280-285 | and the verdict is CONTRADICTORY iff, for some claim with evidence, the model answers CONTRADICTED at or above the threshold |
| `Caches.KeysDiffer` | src/lncvs/indexing/cache.py:94-96 | under an injective hash, keys agree iff fingerprint and text do |
| `Caches.CachingEmbedder.EmbedTexts` | src/lncvs/indexing/cache.py:64-89 | raises iff there are no texts; the inner embedder is asked once, for exactly the texts missing at call start, or not at all; the store gains exactly those |
| `Caches.CachingEmbedder.EmbedQuery` | src/lncvs/indexing/cache.py:91-92 | the vector and the store of a call with the one text |
| `Caches.CacheIsTransparent` | src/lncvs/indexing/cache.py:49-57 | after any interleaving of calls under different fingerprints on one store, a call returns its own inner embedding of every text |
| `JsonlCaches.Open` | src/lncvs/llm/structured_cache.py:66-78 | raises iff some line is no record; otherwise the store is the replay of the file |
| `JsonlCaches.JsonlCache.Put` | src/lncvs/llm/structured_cache.py:83-87 | one entry in the store and one line at the end of the file |
| `JsonlCaches.PutIsDurableIff` | src/lncvs/llm/structured_cache.py:60-63 | after a put the file reloads to the store iff it ended in a complete line before |
| `JsonlCaches.UnterminatedFileIsSpoiled` | src/lncvs/llm/structured_cache.py:60-63 | a file of one record without its newline loads, and does not load after the next put |
| `JsonlCaches.TornPutLoadsIff` | src/lncvs/llm/structured_cache.py:60-63 | a file whose last put was cut off after `n` characters loads iff the whole record was written, and then to the store with it |
| `JsonlCaches.ReloadEqualsStore` | src/lncvs/llm/cache.py:71-92 | after any number of puts the file reloads to the in-memory store, the last put of a key winning |
| `JsonlCaches.CachingClient.Complete` | src/lncvs/llm/structured_cache.py:108-117 | a hit asks nothing; a miss asks once and is on file before it is returned |
| `JsonlCaches.NamespacesCollideIff` | src/lncvs/llm/structured_cache.py:94-97 | two namespaces can answer for each other iff one, with its colon, begins the other |
| `JsonlCaches.ColonInVersionCollides` | src/lncvs/llm/structured_cache.py:119-121 | two versions, one holding a colon, for which one completion answers the other's prompt |
| `JsonlCaches.ColonFreeVersionsNeverCollide` | src/lncvs/llm/structured_cache.py:119-121 | no collision when fingerprints and versions hold no colon |

## Left out

- Chroma, BM25, sentence-transformers, tiktoken, networkx and LangGraph internals, and all model clients: foreign code, here parameters or a plain map of nodes and edges.
- Hash collisions: content hashes are injective functions where a lemma needs it. `Partition.Ordered` takes the mention hash as a number.
- Float rounding: scores and thresholds are `real`, so ties are exact.
- Timestamps, event ids and log messages; a logged event keeps only its stage. Rationale and explanation strings.
- The heading patterns and `extract_mentions` as regular expressions; only the order and range of heading positions is used.
- Segmentation.ShippedBudgetsCanLeaveGaps, like the other windows that break a promise: shown for a lossless tokenizer made for the purpose, not for `o200k_base`, which is not part of this model.
- Canon: no Unicode normalization, as in the code; the smart-character table is the code's own.
- The `add_*` methods of the ledger, unchecked by design, and `mark_unsupported`.
- NovelGraph.GraphIndex.Query: asks that every node of the graph has a record, as `BuildGraphForNovel` and `Index` leave it; `Records.AssembledIsWellFormedIff` says when a graph made of records has them.
- JsonlCaches.JsonlCache.Put: file handles, directories and encodings; the file is its text.
- The object sharing of `EvidenceLedger` between nodes: one service object stands for the services each node wraps around the same ledger.
- Construction.EventIdentity: takes the event hash as injective on its fields; `Identities.SameEventIff` says what holds of the text the code hashes.
- Construction.BuildEvents: groups hold facts and look their participants up again, where the code stores them with the fact.
- Fusion.FuseEvidence: a record stamped with a claim but no query counts as unstamped, since the fused record could not be built from it.
- Config fingerprints, parsers, prompts, metrics, plotting, `clean_text` and the other scripts: easier members only.
