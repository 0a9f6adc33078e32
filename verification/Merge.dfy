/** Cross-window entity merging: which mentions of a corpus are one entity.
    Clause A trusts an alias only when it is somebody's primary name; clause B
    lets an ambiguous surname merge only mentions that agree, or that a second
    key corroborates. A key is its token list (`norm_name(x).split()`). */
module Merge {
  import opened Schemas
  import opened UnionFind
  import Order

  type Key = seq<string>

  datatype Mention = Mention(name: string, aliases: seq<string>, chapter: nat, window: Option<nat>,
                             localId: string, kind: string, provenance: seq<Span>)

  /** The two tokenizers (they differ on underscores) and the closed vocabularies. */
  datatype Lexicon = Lexicon(
    words: string -> seq<string>, rawWords: string -> seq<string>,
    titles: set<string>, generic: set<string>, particles: set<string>,
    maleSenior: set<string>, maleJunior: set<string>, maleNeutral: set<string>,
    femaleMarried: set<string>, femaleUnmarried: set<string>)

  // ----- normalization.py -----

  function StripTitles(titles: set<string>, tokens: seq<string>): Key {
    if tokens != [] && tokens[0] in titles then StripTitles(titles, tokens[1..]) else tokens
  }

  function NormName(lex: Lexicon, name: string): Key {
    StripTitles(lex.titles, lex.words(name))
  }

  method NormNameLoop(lex: Lexicon, name: string) returns (tokens: Key)
    ensures tokens == NormName(lex, name)
    ensures tokens == [] || tokens[0] !in lex.titles
    ensures exists k :: 0 <= k <= |lex.words(name)| && tokens == lex.words(name)[k..] &&
              forall m :: 0 <= m < k ==> lex.words(name)[m] in lex.titles
  {
    tokens := lex.words(name);
    ghost var k := 0;
    while tokens != [] && tokens[0] in lex.titles
      invariant 0 <= k <= |lex.words(name)| && tokens == lex.words(name)[k..]
      invariant forall m :: 0 <= m < k ==> lex.words(name)[m] in lex.titles
      invariant StripTitles(lex.titles, tokens) == NormName(lex, name)
      decreases |tokens|
    {
      tokens := tokens[1..];
      k := k + 1;
    }
  }

  predicate IsGeneric(lex: Lexicon, key: Key) {
    forall token :: token in key ==> token in lex.generic
  }

  // ----- clause B: qualifiers -----

  predicate IsWeak(lex: Lexicon, key: Key) {
    |key| == 1 || (key != [] && key[0] in lex.particles)
  }

  function Markers(lex: Lexicon): set<string> {
    lex.maleSenior + lex.maleJunior + lex.maleNeutral + lex.femaleMarried + lex.femaleUnmarried
  }

  const OTHER := "other:"

  function QualifierTag(lex: Lexicon, surface: string, key: Key): Option<string> {
    var tokens := lex.rawWords(surface);
    var prefix :=
      if |tokens| >= |key| && tokens[|tokens| - |key|..] == key then tokens[..|tokens| - |key|]
      else Filter(token => token !in key, tokens);
    var distinguishing := Filter(token => token !in Markers(lex) && !IsGeneric(lex, [token]), prefix);
    if prefix == [] then None
    else if distinguishing != [] then Some(OTHER + JoinWords(Order.SortBy(distinguishing, Order.StrLe)))
    else if exists token :: token in prefix && token in lex.maleJunior then Some("male_junior")
    else if exists token :: token in prefix && token in lex.maleSenior then Some("male_senior")
    else if exists token :: token in prefix && token in lex.femaleUnmarried then Some("female_unmarried")
    else if exists token :: token in prefix && token in lex.femaleMarried then Some("female_married")
    else None
  }

  function BestTag(lex: Lexicon, surfaces: seq<string>, key: Key): Option<string> {
    if surfaces == [] then None
    else
      var tag := QualifierTag(lex, surfaces[0], key);
      if tag.Some? then tag else BestTag(lex, surfaces[1..], key)
  }

  // ----- clause A: the merge keys of a mention -----

  /** For every mention, each merge key with the surfaces that produced it. */
  type Table = seq<map<Key, seq<string>>>

  function PrimaryKeys(lex: Lexicon, ms: seq<Mention>): set<Key> {
    set m | m in ms && !IsGeneric(lex, NormName(lex, m.name)) :: NormName(lex, m.name)
  }

  predicate Admitted(lex: Lexicon, corpus: set<Key>, surface: string) {
    !IsGeneric(lex, NormName(lex, surface)) && NormName(lex, surface) in corpus
  }

  function SurfacesFor(lex: Lexicon, surfaces: seq<string>, key: Key): seq<string> {
    Filter(s => NormName(lex, s) == key, surfaces)
  }

  function KeysOf(lex: Lexicon, corpus: set<Key>, surfaces: seq<string>): map<Key, seq<string>> {
    map s | s in surfaces && Admitted(lex, corpus, s) ::
      NormName(lex, s) := SurfacesFor(lex, surfaces, NormName(lex, s))
  }

  ghost predicate IsKeyMap(lex: Lexicon, corpus: set<Key>, ss: seq<string>, keys: map<Key, seq<string>>) {
    && (forall k :: k in keys <==> k in corpus && !IsGeneric(lex, k) && SurfacesFor(lex, ss, k) != [])
    && (forall k :: k in keys ==> keys[k] == SurfacesFor(lex, ss, k))
  }

  lemma KeysOfMeaning(lex: Lexicon, corpus: set<Key>, ss: seq<string>)
    ensures IsKeyMap(lex, corpus, ss, KeysOf(lex, corpus, ss))
  {
    forall k, s ensures s in SurfacesFor(lex, ss, k) <==> s in ss && NormName(lex, s) == k {
      FilterMembers(x => NormName(lex, x) == k, ss, s);
    }
    forall k | SurfacesFor(lex, ss, k) != [] ensures SurfacesFor(lex, ss, k)[0] in ss {
      assert SurfacesFor(lex, ss, k)[0] in SurfacesFor(lex, ss, k);
    }
  }

  function TableOf(lex: Lexicon, ms: seq<Mention>): (t: Table)
    ensures |t| == |ms|
    ensures forall i :: 0 <= i < |ms| ==> t[i] == RowOf(lex, PrimaryKeys(lex, ms), ms[i])
  {
    seq(|ms|, i requires 0 <= i < |ms| => RowOf(lex, PrimaryKeys(lex, ms), ms[i]))
  }

  lemma TableOfRows(lex: Lexicon, ms: seq<Mention>, t: Table)
    requires |t| == |ms| && forall i :: 0 <= i < |ms| ==> t[i] == RowOf(lex, PrimaryKeys(lex, ms), ms[i])
    ensures t == TableOf(lex, ms)
  {
    var spec := TableOf(lex, ms);
    assert forall i :: 0 <= i < |t| ==> t[i] == spec[i];
  }

  function RowOf(lex: Lexicon, corpus: set<Key>, m: Mention): map<Key, seq<string>> {
    KeysOf(lex, corpus, [m.name] + m.aliases)
  }

  /** `keys.setdefault(key, []).append(surface)` */
  function AddSurface(keys: map<Key, seq<string>>, key: Key, surface: string): map<Key, seq<string>> {
    keys[key := (if key in keys then keys[key] else []) + [surface]]
  }

  lemma SurfacesAppend(lex: Lexicon, ss: seq<string>, s: string, k: Key)
    ensures SurfacesFor(lex, ss + [s], k) == SurfacesFor(lex, ss, k) + if NormName(lex, s) == k then [s] else []
  {
    FilterAppend(x => NormName(lex, x) == k, ss, s);
  }

  lemma KeyMapAppend(lex: Lexicon, corpus: set<Key>, ss: seq<string>, s: string, keys: map<Key, seq<string>>)
    requires IsKeyMap(lex, corpus, ss, keys)
    ensures IsKeyMap(lex, corpus, ss + [s],
              if Admitted(lex, corpus, s) then AddSurface(keys, NormName(lex, s), s) else keys)
  {
    forall k
      ensures SurfacesFor(lex, ss + [s], k) == SurfacesFor(lex, ss, k) + if NormName(lex, s) == k then [s] else []
    {
      SurfacesAppend(lex, ss, s, k);
    }
  }

  lemma KeyMapIsUnique(lex: Lexicon, corpus: set<Key>, ss: seq<string>, keys: map<Key, seq<string>>)
    requires IsKeyMap(lex, corpus, ss, keys)
    ensures keys == KeysOf(lex, corpus, ss)
  {
    KeysOfMeaning(lex, corpus, ss);
  }

  lemma PrimaryKeysAppend(lex: Lexicon, ms: seq<Mention>, m: Mention)
    ensures PrimaryKeys(lex, ms + [m]) ==
            PrimaryKeys(lex, ms) + if IsGeneric(lex, NormName(lex, m.name)) then {} else {NormName(lex, m.name)}
  {
    assert forall x :: x in ms + [m] <==> x in ms || x == m;
  }

  method CollectPrimaryKeys(lex: Lexicon, ordered: seq<Mention>) returns (corpus: set<Key>)
    ensures corpus == PrimaryKeys(lex, ordered)
  {
    corpus := {};
    for i := 0 to |ordered|
      invariant corpus == PrimaryKeys(lex, ordered[..i])
    {
      var primary := NormNameLoop(lex, ordered[i].name);
      PrimaryKeysAppend(lex, ordered[..i], ordered[i]);
      assert ordered[..i + 1] == ordered[..i] + [ordered[i]];
      if primary != [] && !IsGeneric(lex, primary) {
        corpus := corpus + {primary};
      }
    }
    assert ordered[..|ordered|] == ordered;
  }

  predicate OwnsPrimary(lex: Lexicon, corpus: set<Key>, m: Mention) {
    !IsGeneric(lex, NormName(lex, m.name)) ==> NormName(lex, m.name) in corpus
  }

  method CollectRows(lex: Lexicon, corpus: set<Key>, ordered: seq<Mention>) returns (table: Table)
    requires forall m :: m in ordered ==> OwnsPrimary(lex, corpus, m)
    ensures |table| == |ordered|
    ensures forall i :: 0 <= i < |ordered| ==> table[i] == RowOf(lex, corpus, ordered[i])
  {
    table := [];
    for i := 0 to |ordered|
      invariant |table| == i
      invariant forall m :: 0 <= m < i ==> table[m] == RowOf(lex, corpus, ordered[m])
    {
      var keys := CollectMentionKeys(lex, corpus, ordered[i]);
      table := table + [keys];
    }
  }

  /** The key-collecting loops of `compute_components`. */
  method CollectKeys(lex: Lexicon, ordered: seq<Mention>) returns (table: Table)
    ensures table == TableOf(lex, ordered)
  {
    var corpus := CollectPrimaryKeys(lex, ordered);
    table := CollectRows(lex, corpus, ordered);
    TableOfRows(lex, ordered, table);
  }

  method CollectMentionKeys(lex: Lexicon, corpus: set<Key>, raw: Mention) returns (keys: map<Key, seq<string>>)
    requires OwnsPrimary(lex, corpus, raw)
    ensures keys == RowOf(lex, corpus, raw)
  {
    keys := map[];
    var primary := NormNameLoop(lex, raw.name);
    KeyMapAppend(lex, corpus, [], raw.name, keys);
    assert [] + [raw.name] == [raw.name] + raw.aliases[..0];
    if primary != [] && !IsGeneric(lex, primary) {
      keys := AddSurface(keys, primary, raw.name);
    }
    for j := 0 to |raw.aliases|
      invariant IsKeyMap(lex, corpus, [raw.name] + raw.aliases[..j], keys)
    {
      var alias := NormNameLoop(lex, raw.aliases[j]);
      KeyMapAppend(lex, corpus, [raw.name] + raw.aliases[..j], raw.aliases[j], keys);
      assert [raw.name] + raw.aliases[..j] + [raw.aliases[j]] == [raw.name] + raw.aliases[..j + 1];
      if alias != [] && !IsGeneric(lex, alias) && alias in corpus {
        keys := AddSurface(keys, alias, raw.aliases[j]);
      }
    }
    assert raw.aliases[..|raw.aliases|] == raw.aliases;
    KeyMapIsUnique(lex, corpus, [raw.name] + raw.aliases, keys);
  }

  /** Clause A and the generic-referent guard: every merge key is non-generic
      and is the normalized primary name of some mention of the corpus. */
  lemma KeysAreCorroborated(lex: Lexicon, ms: seq<Mention>, i: nat, key: Key)
    requires i < |ms| && key in TableOf(lex, ms)[i]
    ensures key != [] && !IsGeneric(lex, key)
    ensures exists m :: m in ms && NormName(lex, m.name) == key
    ensures exists s :: s in [ms[i].name] + ms[i].aliases && NormName(lex, s) == key
  {
    var surfaces := [ms[i].name] + ms[i].aliases;
    assert key in KeysOf(lex, PrimaryKeys(lex, ms), surfaces);
    var s :| s in surfaces && Admitted(lex, PrimaryKeys(lex, ms), s) && NormName(lex, s) == key;
    assert key in PrimaryKeys(lex, ms);
  }

  /** A mention's own primary name is never subject to clause A. */
  lemma PrimaryNameIsAKey(lex: Lexicon, ms: seq<Mention>, i: nat)
    requires i < |ms| && !IsGeneric(lex, NormName(lex, ms[i].name))
    ensures NormName(lex, ms[i].name) in TableOf(lex, ms)[i]
  {
    assert ms[i] in ms;
    assert ms[i].name in [ms[i].name] + ms[i].aliases;
    assert Admitted(lex, PrimaryKeys(lex, ms), ms[i].name);
  }

  // ----- who holds a key, and how they are tagged -----

  function HoldersUpTo(t: Table, key: Key, n: nat): seq<nat>
    requires n <= |t|
  {
    if n == 0 then [] else HoldersUpTo(t, key, n - 1) + if key in t[n - 1] then [n - 1] else []
  }

  lemma {:induction false} HoldersMembers(t: Table, key: Key, n: nat, i: nat)
    requires n <= |t|
    ensures i in HoldersUpTo(t, key, n) <==> i < n && key in t[i]
  {
    if n != 0 { HoldersMembers(t, key, n - 1, i); }
  }

  function Holders(t: Table, key: Key): seq<nat> {
    HoldersUpTo(t, key, |t|)
  }

  function TagAt(lex: Lexicon, t: Table, key: Key, i: nat): Option<string> {
    if i < |t| && key in t[i] then BestTag(lex, t[i][key], key) else None
  }

  /** The tags shown by `hs`, bare mentions left out. */
  function ShownTags(lex: Lexicon, t: Table, key: Key, hs: seq<nat>): seq<string> {
    if hs == [] then []
    else
      ShownTags(lex, t, key, hs[..|hs| - 1]) +
      match TagAt(lex, t, key, hs[|hs| - 1]) { case Some(s) => [s] case None => [] }
  }

  function TagsOf(lex: Lexicon, t: Table, key: Key): seq<string> {
    ShownTags(lex, t, key, Holders(t, key))
  }

  function AllKeys(t: Table): set<Key> {
    set i, k | 0 <= i < |t| && k in t[i] :: k
  }

  function TagSet(tags: seq<string>): set<string> { set s | s in tags }

  /** A weak key is ambiguous iff it shows at least two distinct tags. */
  predicate Ambiguous(lex: Lexicon, t: Table, key: Key) {
    IsWeak(lex, key) && |TagSet(TagsOf(lex, t, key))| >= 2
  }

  function AmbiguousKeys(lex: Lexicon, t: Table): set<Key> {
    set k | k in AllKeys(t) && Ambiguous(lex, t, k)
  }

  // ----- the anchor tag -----

  predicate Preferred(tags: seq<string>, a: string, b: string) {
    multiset(tags)[a] > multiset(tags)[b] || (multiset(tags)[a] == multiset(tags)[b] && Order.StrLe(a, b))
  }

  /** Most frequent tag, ties to the alphabetically first; none when all are bare. */
  function Anchor(tags: seq<string>): Option<string> {
    if tags == [] then None
    else
      var sorted := Order.SortBy(tags, (a, b) => Preferred(tags, a, b));
      if sorted == [] then None else Some(sorted[0])
  }

  lemma PreferredIsTotal(tags: seq<string>)
    ensures Order.TotalPreorder((a, b) => Preferred(tags, a, b))
  {
    Order.StrLeIsTotalOrder();
  }

  lemma AnchorIsMostFrequent(tags: seq<string>, tag: string)
    requires tags != []
    ensures Anchor(tags).Some? && Anchor(tags).value in tags
    ensures tag in tags ==> Preferred(tags, Anchor(tags).value, tag)
    ensures tag in tags && (forall u :: u in tags ==> Preferred(tags, tag, u)) ==> Anchor(tags) == Some(tag)
  {
    PreferredIsTotal(tags);
    var le := (a, b) => Preferred(tags, a, b);
    Order.SortByCorrect(tags, le);
    var sorted := Order.SortBy(tags, le);
    assert sorted[0] in tags;
    if tag in tags {
      Order.HeadIsLeast(sorted, tag, le);
      assert le(sorted[0], tag);
      if Preferred(tags, tag, sorted[0]) { Order.StrLeIsTotalOrder(); Order.StrLeAntisymmetric(tag, sorted[0]); }
    }
  }

  /** The group of a key that a mention belongs to: its tag, or the anchor's group when bare. */
  function Side(lex: Lexicon, t: Table, key: Key, i: nat): Option<string> {
    var tag := TagAt(lex, t, key, i);
    if tag.Some? then tag else Anchor(TagsOf(lex, t, key))
  }

  // ----- what links two mentions -----

  predicate SecondKey(t: Table, key: Key, i: nat, j: nat) {
    i < |t| && j < |t| && (t[i].Keys * t[j].Keys) - {key} != {}
  }

  ghost predicate Corroborated(lex: Lexicon, t: Table, key: Key, a: Option<string>, b: Option<string>) {
    exists i: nat, j: nat ::
      i in Holders(t, key) && j in Holders(t, key) &&
      Side(lex, t, key, i) == a && Side(lex, t, key, j) == b && SecondKey(t, key, i, j)
  }

  ghost predicate LinksVia(lex: Lexicon, t: Table, ambiguous: set<Key>, key: Key, i: nat, j: nat) {
    && i < |t| && j < |t| && key in t[i] && key in t[j]
    && (|| key !in ambiguous
        || Side(lex, t, key, i) == Side(lex, t, key, j)
        || Corroborated(lex, t, key, Side(lex, t, key, i), Side(lex, t, key, j)))
  }

  /** One step of the merge policy. */
  ghost function EvidenceLink(lex: Lexicon, t: Table, ambiguous: set<Key>): Link {
    (i: nat, j: nat) => exists key :: LinksVia(lex, t, ambiguous, key, i, j)
  }
}
