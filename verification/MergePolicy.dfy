/** The merge policy said of the mentions themselves: which keys a mention bears,
    how it is qualified, and when two mentions are one entity. */
module MergePolicy {
  import opened Schemas
  import opened UnionFind
  import opened Merge
  import opened Components
  import opened Partition
  import opened EntityResolution
  import Order

  // ----- keys -----

  function Surfaces(m: Mention): seq<string> { [m.name] + m.aliases }

  /** Some token of the key is no generic word. */
  predicate Specific(lex: Lexicon, k: Key) { exists token :: token in k && token !in lex.generic }

  /** Mention `i` bears the key: some surface of it reads as the key, which is
      specific and the reading of some mention's own name. */
  ghost predicate Bears(lex: Lexicon, ms: seq<Mention>, i: nat, k: Key) {
    && i < |ms| && Specific(lex, k)
    && (exists m :: m in ms && NormName(lex, m.name) == k)
    && (NormName(lex, ms[i].name) == k || exists a :: a in ms[i].aliases && NormName(lex, a) == k)
  }

  function ReadsAs(lex: Lexicon, k: Key): string -> bool { (s: string) => NormName(lex, s) == k }

  /** The keys of a mention, aliases included, and the surfaces listed for each. */
  lemma KeysIff(lex: Lexicon, ms: seq<Mention>, i: nat, k: Key)
    requires i < |ms|
    ensures k in TableOf(lex, ms)[i] <==> Bears(lex, ms, i, k)
    ensures k in TableOf(lex, ms)[i] ==>
      TableOf(lex, ms)[i][k] == Filter(ReadsAs(lex, k), [ms[i].name] + ms[i].aliases)
  {
    hide NormName, Filter, KeysOf, SurfacesFor, PrimaryKeys;
    var corpus, all := PrimaryKeys(lex, ms), Surfaces(ms[i]);
    KeysOfMeaning(lex, corpus, all);
    SurfacesAreFiltered(lex, all, k);
    SurfaceIsListed(lex, all, k);
    ReadBySome(lex, ms[i], k);
    GenericIff(lex, k);
    if Specific(lex, k) { PrimaryIff(lex, ms, k); }
  }

  lemma ReadBySome(lex: Lexicon, m: Mention, k: Key)
    ensures (exists s :: s in Surfaces(m) && NormName(lex, s) == k) <==>
      NormName(lex, m.name) == k || exists a :: a in m.aliases && NormName(lex, a) == k
  {
    hide NormName;
    var all := Surfaces(m);
    assert all[0] == m.name && forall a :: a in m.aliases ==> a in all;
  }

  lemma GenericIff(lex: Lexicon, k: Key)
    ensures !IsGeneric(lex, k) <==> Specific(lex, k)
  {
  }

  lemma PrimaryIff(lex: Lexicon, ms: seq<Mention>, k: Key)
    requires Specific(lex, k)
    ensures k in PrimaryKeys(lex, ms) <==> exists m :: m in ms && NormName(lex, m.name) == k
  {
    hide NormName;
    GenericIff(lex, k);
  }

  lemma SurfacesAreFiltered(lex: Lexicon, all: seq<string>, k: Key)
    ensures SurfacesFor(lex, all, k) == Filter(ReadsAs(lex, k), all)
  {
    SameFilters(s => NormName(lex, s) == k, ReadsAs(lex, k), all);
  }

  lemma SurfaceIsListed(lex: Lexicon, all: seq<string>, k: Key)
    ensures SurfacesFor(lex, all, k) != [] <==> exists s :: s in all && NormName(lex, s) == k
  {
    var f := s => NormName(lex, s) == k;
    if SurfacesFor(lex, all, k) != [] {
      var s := Filter(f, all)[0];
      assert s in Filter(f, all);
      FilterMembers(f, all, s);
    }
    if s :| s in all && NormName(lex, s) == k { FilterMembers(f, all, s); }
  }

  // ----- qualifiers -----

  /** The words of a surface around a key: those before it when the surface ends
      with the key, otherwise all that are not in it. */
  ghost predicate Around(lex: Lexicon, surface: string, k: Key, q: seq<string>) {
    if exists p :: lex.rawWords(surface) == p + k then lex.rawWords(surface) == q + k
    else q == Filter((token: string) => token !in k, lex.rawWords(surface))
  }

  /** A word that says who is meant: neither a title, nor a word of kinship or rank, nor generic. */
  predicate Distinguishes(lex: Lexicon, token: string) {
    && token !in lex.generic
    && token !in lex.maleSenior && token !in lex.maleJunior && token !in lex.maleNeutral
    && token !in lex.femaleMarried && token !in lex.femaleUnmarried
  }

  ghost predicate SomeIn(q: seq<string>, words: set<string>) { exists token :: token in q && token in words }

  /** The words in ascending order, each as often as in `q`. */
  ghost predicate SortedWords(words: seq<string>, q: seq<string>) {
    && Order.Sorted(words, Order.StrLe)
    && forall w :: multiset(words)[w] == multiset(q)[w]
  }

  /** The tag that the words `q` around a key give. */
  ghost predicate TagIs(lex: Lexicon, q: seq<string>, tag: Option<string>) {
    if exists token :: token in q && Distinguishes(lex, token) then
      exists words :: SortedWords(words, Filter((token: string) => Distinguishes(lex, token), q))
                      && tag == Some("other:" + JoinWords(words))
    else if SomeIn(q, lex.maleJunior) then tag == Some("male_junior")
    else if SomeIn(q, lex.maleSenior) then tag == Some("male_senior")
    else if SomeIn(q, lex.femaleUnmarried) then tag == Some("female_unmarried")
    else if SomeIn(q, lex.femaleMarried) then tag == Some("female_married")
    else tag == None
  }

  lemma AroundExists(lex: Lexicon, surface: string, k: Key) returns (q: seq<string>)
    ensures Around(lex, surface, k, q)
    ensures q == var tokens := lex.rawWords(surface);
      if |tokens| >= |k| && tokens[|tokens| - |k|..] == k then tokens[..|tokens| - |k|]
      else Filter(token => token !in k, tokens)
  {
    hide Filter;
    var tokens := lex.rawWords(surface);
    if |tokens| >= |k| && tokens[|tokens| - |k|..] == k {
      q := tokens[..|tokens| - |k|];
      assert tokens == q + k;
    } else {
      q := Filter(token => token !in k, tokens);
      SameFilters(token => token !in k, (token: string) => token !in k, tokens);
      forall p ensures tokens != p + k {
        if tokens == p + k { EndsWith(tokens, p, k); }
      }
    }
  }

  lemma EndsWith(tokens: seq<string>, p: seq<string>, k: Key)
    requires tokens == p + k
    ensures |tokens| >= |k| && tokens[|tokens| - |k|..] == k
  {
  }

  /** The tag of a surface, from the words around the key. */
  lemma QualifierTagIs(lex: Lexicon, surface: string, k: Key, q: seq<string>)
    requires Around(lex, surface, k, q)
    ensures TagIs(lex, q, QualifierTag(lex, surface, k))
  {
    hide Filter, Order.SortBy, Order.StrLe, JoinWords;
    var p := AroundExists(lex, surface, k);
    if exists p :: lex.rawWords(surface) == p + k {
      assert q + k == p + k;
      assert q == (q + k)[..|q|] && p == (p + k)[..|p|];
    }
    assert p == q;
    DistinguishingWords(lex, q);
  }

  lemma DistinguishingWords(lex: Lexicon, q: seq<string>)
    ensures var d := Filter(token => token !in Markers(lex) && !IsGeneric(lex, [token]), q);
      && (d != [] <==> exists token :: token in q && Distinguishes(lex, token))
      && SortedWords(Order.SortBy(d, Order.StrLe), Filter((token: string) => Distinguishes(lex, token), q))
  {
    hide Filter, Order.SortBy, Order.StrLe;
    var f := token => token !in Markers(lex) && !IsGeneric(lex, [token]);
    var g := (token: string) => Distinguishes(lex, token);
    var d := Filter(f, q);
    forall token: string ensures f(token) == g(token) {
      assert IsGeneric(lex, [token]) <==> token in lex.generic;
    }
    SameFilters(f, g, q);
    if d != [] {
      assert d[0] in d;
      FilterMembers(f, q, d[0]);
    }
    if token :| token in q && Distinguishes(lex, token) { FilterMembers(f, q, token); }
    Order.StrLeIsTotalOrder();
    Order.SortByCorrect(d, Order.StrLe);
  }

  // ----- the tag of a mention -----

  /** The first of the surfaces that read as the key and have a tag gives it. */
  ghost predicate MentionTag(lex: Lexicon, m: Mention, k: Key, tag: Option<string>) {
    var all := [m.name] + m.aliases;
    if exists p :: 0 <= p < |all| && NormName(lex, all[p]) == k && QualifierTag(lex, all[p], k).Some? then
      exists p :: 0 <= p < |all| && NormName(lex, all[p]) == k && QualifierTag(lex, all[p], k).Some?
        && tag == QualifierTag(lex, all[p], k)
        && forall o :: 0 <= o < p && NormName(lex, all[o]) == k ==> QualifierTag(lex, all[o], k).None?
    else tag == None
  }

  /** `best` is the tag of surface `p`, the first that reads as the key and has one, or there is none. */
  ghost predicate FirstTag(lex: Lexicon, all: seq<string>, k: Key, best: Option<string>, p: nat) {
    if best.Some? then
      && p < |all| && NormName(lex, all[p]) == k && QualifierTag(lex, all[p], k) == best
      && forall o :: 0 <= o < p && NormName(lex, all[o]) == k ==> QualifierTag(lex, all[o], k).None?
    else forall o :: 0 <= o < |all| && NormName(lex, all[o]) == k ==> QualifierTag(lex, all[o], k).None?
  }

  lemma {:induction false} BestTagIs(lex: Lexicon, all: seq<string>, k: Key) returns (p: nat)
    ensures FirstTag(lex, all, k, BestTag(lex, Filter(ReadsAs(lex, k), all), k), p)
  {
    hide NormName, QualifierTag, BestTag;
    p := 0;
    if all == [] {
      NoBestTag(lex, k);
    } else {
      var front, last := all[..|all| - 1], all[|all| - 1];
      var kept := Filter(ReadsAs(lex, k), front);
      assert all == front + [last];
      FilterAppend(ReadsAs(lex, k), front, last);
      var o := BestTagIs(lex, front, k);
      BestTagAppend(lex, kept, last, k);
      p := if NormName(lex, last) == k && BestTag(lex, kept, k).None? then |front| else o;
      assert kept + [] == kept;
    }
  }

  lemma NoBestTag(lex: Lexicon, k: Key)
    ensures BestTag(lex, [], k) == None
  {
  }

  lemma {:induction false} BestTagAppend(lex: Lexicon, ss: seq<string>, s: string, k: Key)
    ensures BestTag(lex, ss + [s], k) ==
      if BestTag(lex, ss, k).Some? then BestTag(lex, ss, k) else QualifierTag(lex, s, k)
  {
    hide QualifierTag;
    if ss == [] {
      assert ss + [s] == [s] && [s][1..] == [];
    } else {
      BestTagAppend(lex, ss[1..], s, k);
      assert (ss + [s])[1..] == ss[1..] + [s] && (ss + [s])[0] == ss[0];
    }
  }

  lemma TagAtIs(lex: Lexicon, ms: seq<Mention>, i: nat, k: Key)
    requires Bears(lex, ms, i, k)
    ensures MentionTag(lex, ms[i], k, TagAt(lex, TableOf(lex, ms), k, i))
  {
    hide NormName, QualifierTag, BestTag, Filter, TableOf, Bears;
    assert i < |ms| by { BearsIsListed(lex, ms, i, k); }
    KeysIff(lex, ms, i, k);
    var p := BestTagIs(lex, [ms[i].name] + ms[i].aliases, k);
  }

  lemma BearsIsListed(lex: Lexicon, ms: seq<Mention>, i: nat, k: Key)
    requires Bears(lex, ms, i, k)
    ensures i < |ms|
  {
  }

  lemma MentionTagIsOne(lex: Lexicon, m: Mention, k: Key, a: Option<string>, b: Option<string>)
    requires MentionTag(lex, m, k, a) && MentionTag(lex, m, k, b)
    ensures a == b
  {
    hide NormName, QualifierTag;
  }

  /** Mention `i` bears the key under this tag. */
  ghost predicate Shows(lex: Lexicon, ms: seq<Mention>, k: Key, i: nat, tag: Option<string>) {
    Bears(lex, ms, i, k) && MentionTag(lex, ms[i], k, tag)
  }

  lemma ShowsIff(lex: Lexicon, ms: seq<Mention>, k: Key, i: nat, tag: Option<string>)
    ensures Shows(lex, ms, k, i, tag) <==> HoldsTag(lex, TableOf(lex, ms), k, tag, i)
  {
    hide NormName, QualifierTag, MentionTag, TagAt, TableOf;
    if i < |ms| {
      KeysIff(lex, ms, i, k);
      if Bears(lex, ms, i, k) {
        TagAtIs(lex, ms, i, k);
        if Shows(lex, ms, k, i, tag) {
          MentionTagIsOne(lex, ms[i], k, tag, TagAt(lex, TableOf(lex, ms), k, i));
        }
      }
    }
  }

  // ----- ambiguous keys -----

  /** One token, or led by a particle; and two mentions bear it under different tags. */
  ghost predicate Conflicted(lex: Lexicon, ms: seq<Mention>, k: Key) {
    && (|k| == 1 || (|k| > 1 && k[0] in lex.particles))
    && exists i: nat, j: nat, a, b :: Shows(lex, ms, k, i, Some(a)) && Shows(lex, ms, k, j, Some(b)) && a != b
  }

  lemma AmbiguousIff(lex: Lexicon, ms: seq<Mention>, k: Key)
    ensures k in AmbiguousKeys(lex, TableOf(lex, ms)) <==> Conflicted(lex, ms, k)
  {
    hide Shows, TableOf, TagsOf, TagSet, AllKeys;
    var t := TableOf(lex, ms);
    var shown := TagsOf(lex, t, k);
    TwoDistinct(shown);
    forall a ensures a in shown <==> exists i: nat :: Shows(lex, ms, k, i, Some(a)) { ShownIff(lex, ms, k, a); }
    if a :| a in shown { ShownIsKey(lex, t, k, a); }
  }

  lemma ShownIff(lex: Lexicon, ms: seq<Mention>, k: Key, a: string)
    ensures a in TagsOf(lex, TableOf(lex, ms), k) <==> exists i: nat :: Shows(lex, ms, k, i, Some(a))
  {
    hide Shows, HoldsTag, TableOf, TagsOf;
    if a in TagsOf(lex, TableOf(lex, ms), k) {
      var i := ShownTagIsHeld(lex, TableOf(lex, ms), k, a);
      ShowsIff(lex, ms, k, i, Some(a));
    }
    if i: nat :| Shows(lex, ms, k, i, Some(a)) {
      ShowsIff(lex, ms, k, i, Some(a));
      TagIsShown(lex, TableOf(lex, ms), k, a, i);
    }
  }

  lemma ShownIsKey(lex: Lexicon, t: Table, k: Key, a: string)
    requires a in TagsOf(lex, t, k)
    ensures k in AllKeys(t)
  {
    hide HoldsTag, TagsOf, AllKeys;
    var i := ShownTagIsHeld(lex, t, k, a);
    HeldIsKey(lex, t, k, Some(a), i);
  }

  lemma HeldIsKey(lex: Lexicon, t: Table, k: Key, tag: Option<string>, i: nat)
    requires HoldsTag(lex, t, k, tag, i)
    ensures k in AllKeys(t)
  {
  }

  lemma TwoDistinct(tags: seq<string>)
    ensures |TagSet(tags)| >= 2 <==> exists a, b :: a in tags && b in tags && a != b
  {
    var s := TagSet(tags);
    if |s| >= 2 {
      var a :| a in s;
      assert |s - {a}| >= 1;
      var b :| b in s - {a};
      assert a in tags && b in tags;
    }
    if a, b :| a in tags && b in tags && a != b {
      assert {a, b} <= s;
      SubsetIsSmaller({a, b}, s);
    }
  }

  lemma SubsetIsSmaller<T>(a: set<T>, b: set<T>)
    requires a <= b
    ensures |a| <= |b|
  {
    assert b == a + (b - a);
  }

  // ----- the anchor -----

  /** The mentions that bear the key under tag `a`. */
  ghost function Showing(lex: Lexicon, ms: seq<Mention>, k: Key, a: string): set<nat> {
    set i | 0 <= i < |ms| && Shows(lex, ms, k, i, Some(a))
  }

  /** The tag most mentions of the key bear, the alphabetically first among equals; none when all are bare. */
  ghost predicate AnchorIs(lex: Lexicon, ms: seq<Mention>, k: Key, tag: Option<string>) {
    if forall a :: Showing(lex, ms, k, a) == {} then tag == None
    else
      && tag.Some? && Showing(lex, ms, k, tag.value) != {}
      && forall a :: Showing(lex, ms, k, a) != {} ==>
           || |Showing(lex, ms, k, a)| < |Showing(lex, ms, k, tag.value)|
           || (|Showing(lex, ms, k, a)| == |Showing(lex, ms, k, tag.value)| && Order.StrLe(tag.value, a))
  }

  lemma {:induction false} HoldersAscend(t: Table, key: Key, n: nat, x: nat, y: nat)
    requires n <= |t| && x < y < |HoldersUpTo(t, key, n)|
    ensures HoldersUpTo(t, key, n)[x] < HoldersUpTo(t, key, n)[y]
  {
    if n != 0 {
      var front := HoldersUpTo(t, key, n - 1);
      if y < |front| {
        HoldersAscend(t, key, n - 1, x, y);
      } else {
        assert front[x] in front;
        HoldersMembers(t, key, n - 1, front[x]);
      }
    }
  }

  function Kept(f: nat -> bool, xs: seq<nat>): set<nat> { set x | x in xs && f(x) }

  lemma {:induction false} CountedOnce(f: nat -> bool, xs: seq<nat>)
    requires Order.NoDuplicates(xs)
    ensures |Filter(f, xs)| == |Kept(f, xs)|
  {
    hide Order.NoDuplicates, Kept;
    if xs == [] {
      NoneKept(f);
    } else {
      FrontHasNoDuplicates(xs);
      CountedOnce(f, xs[..|xs| - 1]);
      OneMoreKept(f, xs[..|xs| - 1], xs[|xs| - 1]);
      assert xs == xs[..|xs| - 1] + [xs[|xs| - 1]];
    }
  }

  lemma NoneKept(f: nat -> bool)
    ensures Kept(f, []) == {}
  {
  }

  lemma OneMoreKept(f: nat -> bool, front: seq<nat>, last: nat)
    requires last !in front
    ensures |Kept(f, front + [last])| == |Kept(f, front)| + if f(last) then 1 else 0
  {
    assert Kept(f, front + [last]) == Kept(f, front) + if f(last) then {last} else {};
  }

  lemma FrontHasNoDuplicates<T>(xs: seq<T>)
    requires Order.NoDuplicates(xs) && xs != []
    ensures Order.NoDuplicates(xs[..|xs| - 1]) && xs[|xs| - 1] !in xs[..|xs| - 1]
  {
  }

  lemma ShowingIsCount(lex: Lexicon, ms: seq<Mention>, k: Key, a: string)
    ensures multiset(TagsOf(lex, TableOf(lex, ms), k))[a] == |Showing(lex, ms, k, a)|
    ensures a in TagsOf(lex, TableOf(lex, ms), k) <==> Showing(lex, ms, k, a) != {}
  {
    hide Shows, TagAt, TableOf, HoldersUpTo, ShownTags;
    var t := TableOf(lex, ms);
    var hs := Holders(t, k);
    var f := (i: nat) => TagAt(lex, t, k, i) == Some(a);
    GroupSizeIsTagCount(lex, t, k, a, hs);
    SameFilters(i => TagAt(lex, t, k, i) == Some(a), f, hs);
    forall x, y | 0 <= x < y < |hs| ensures hs[x] != hs[y] { HoldersAscend(t, k, |t|, x, y); }
    CountedOnce(f, hs);
    forall i: nat ensures i in Showing(lex, ms, k, a) <==> i in hs && f(i) {
      HoldersMembers(t, k, |t|, i);
      ShowsIff(lex, ms, k, i, Some(a));
      ShowsInside(lex, ms, k, i, Some(a));
    }
    assert Showing(lex, ms, k, a) == Kept(f, hs);
    assert a in TagsOf(lex, t, k) <==> multiset(TagsOf(lex, t, k))[a] > 0;
  }

  lemma ShowsInside(lex: Lexicon, ms: seq<Mention>, k: Key, i: nat, tag: Option<string>)
    ensures Shows(lex, ms, k, i, tag) ==> i < |ms|
  {
  }

  lemma AnchorTagIs(lex: Lexicon, ms: seq<Mention>, k: Key)
    ensures AnchorIs(lex, ms, k, Anchor(TagsOf(lex, TableOf(lex, ms), k)))
  {
    hide Showing, TagsOf, TableOf, Anchor, Order.StrLe;
    var tags := TagsOf(lex, TableOf(lex, ms), k);
    forall a
      ensures multiset(tags)[a] == |Showing(lex, ms, k, a)| && (a in tags <==> Showing(lex, ms, k, a) != {})
    {
      ShowingIsCount(lex, ms, k, a);
    }
    if tags == [] {
      NoAnchor();
    } else {
      AnchorIsMostFrequent(tags, tags[0]);
      assert tags[0] in tags;
      forall a | a in tags ensures Preferred(tags, Anchor(tags).value, a) { AnchorIsMostFrequent(tags, a); }
    }
  }

  lemma NoAnchor()
    ensures Anchor([]) == None
  {
  }

  lemma AnchorIsOne(lex: Lexicon, ms: seq<Mention>, k: Key, a: Option<string>, b: Option<string>)
    requires AnchorIs(lex, ms, k, a) && AnchorIs(lex, ms, k, b)
    ensures a == b
  {
    hide Showing, Order.StrLe;
    if a.Some? && b.Some? && a != b { Order.StrLeAntisymmetric(a.value, b.value); }
  }

  /** How a mention of the key is read: by its own tag, or when bare by the anchor's. */
  ghost predicate ReadUnder(lex: Lexicon, ms: seq<Mention>, k: Key, i: nat, tag: Option<string>) {
    && Bears(lex, ms, i, k)
    && (if MentionTag(lex, ms[i], k, None) then AnchorIs(lex, ms, k, tag)
        else tag.Some? && MentionTag(lex, ms[i], k, tag))
  }

  lemma SideIs(lex: Lexicon, ms: seq<Mention>, k: Key, i: nat, tag: Option<string>)
    requires i < |ms|
    ensures ReadUnder(lex, ms, k, i, tag) <==> OnSide(lex, TableOf(lex, ms), k, tag, i)
  {
    hide TableOf, TagAt, MentionTag, AnchorIs, Anchor, TagsOf, Bears;
    KeysIff(lex, ms, i, k);
    if Bears(lex, ms, i, k) {
      var t := TableOf(lex, ms);
      TagAtIs(lex, ms, i, k);
      AnchorTagIs(lex, ms, k);
      if MentionTag(lex, ms[i], k, None) { MentionTagIsOne(lex, ms[i], k, None, TagAt(lex, t, k, i)); }
      if MentionTag(lex, ms[i], k, tag) { MentionTagIsOne(lex, ms[i], k, tag, TagAt(lex, t, k, i)); }
      if AnchorIs(lex, ms, k, tag) { AnchorIsOne(lex, ms, k, tag, Anchor(TagsOf(lex, t, k))); }
    }
  }

  // ----- one step, and components -----

  /** Both bear another key as well. */
  ghost predicate ShareOther(lex: Lexicon, ms: seq<Mention>, k: Key, p: nat, q: nat) {
    exists other :: other != k && Bears(lex, ms, p, other) && Bears(lex, ms, q, other)
  }

  /** Two mentions of the key that are read under `a` and `b` share another key. */
  ghost predicate Vouched(lex: Lexicon, ms: seq<Mention>, k: Key, a: Option<string>, b: Option<string>) {
    exists p: nat, q: nat ::
      ReadUnder(lex, ms, k, p, a) && ReadUnder(lex, ms, k, q, b) && ShareOther(lex, ms, k, p, q)
  }

  /** The key joins two mentions: it is not ambiguous, or both are read alike, or
      two mentions read as they are share another key. */
  ghost predicate Joins(lex: Lexicon, ms: seq<Mention>, k: Key, i: nat, j: nat) {
    && Bears(lex, ms, i, k) && Bears(lex, ms, j, k)
    && (|| !Conflicted(lex, ms, k)
        || (exists tag :: ReadUnder(lex, ms, k, i, tag) && ReadUnder(lex, ms, k, j, tag))
        || (exists a, b :: ReadUnder(lex, ms, k, i, a) && ReadUnder(lex, ms, k, j, b) && Vouched(lex, ms, k, a, b)))
  }

  lemma SecondKeyMeans(t: Table, k: Key, p: nat, q: nat)
    requires p < |t| && q < |t|
    ensures SecondKey(t, k, p, q) <==> exists other :: other != k && other in t[p] && other in t[q]
  {
    var both := (t[p].Keys * t[q].Keys) - {k};
    if both != {} { var other :| other in both; }
    if other :| other != k && other in t[p] && other in t[q] { assert other in both; }
  }

  lemma ShareOtherIff(lex: Lexicon, ms: seq<Mention>, k: Key, p: nat, q: nat)
    requires p < |ms| && q < |ms|
    ensures ShareOther(lex, ms, k, p, q) <==> SecondKey(TableOf(lex, ms), k, p, q)
  {
    hide TableOf, Bears, SecondKey;
    var t := TableOf(lex, ms);
    SecondKeyMeans(t, k, p, q);
    if other :| other != k && other in t[p] && other in t[q] {
      KeysIff(lex, ms, p, other);
      KeysIff(lex, ms, q, other);
    }
    if other :| other != k && Bears(lex, ms, p, other) && Bears(lex, ms, q, other) {
      KeysIff(lex, ms, p, other);
      KeysIff(lex, ms, q, other);
    }
  }

  lemma ReadInside(lex: Lexicon, ms: seq<Mention>, k: Key, i: nat, tag: Option<string>)
    ensures ReadUnder(lex, ms, k, i, tag) ==> i < |ms| && Bears(lex, ms, i, k)
  {
  }

  lemma ReadIff(lex: Lexicon, ms: seq<Mention>, k: Key, p: nat, tag: Option<string>)
    ensures ReadUnder(lex, ms, k, p, tag) <==>
      p in Holders(TableOf(lex, ms), k) && Side(lex, TableOf(lex, ms), k, p) == tag
  {
    hide TableOf, ReadUnder, Side, HoldersUpTo;
    ReadInside(lex, ms, k, p, tag);
    HoldersMembers(TableOf(lex, ms), k, |ms|, p);
    if p < |ms| { SideIs(lex, ms, k, p, tag); }
  }

  lemma CorroboratedIff(lex: Lexicon, ms: seq<Mention>, k: Key, a: Option<string>, b: Option<string>)
    ensures Corroborated(lex, TableOf(lex, ms), k, a, b) <==> Vouched(lex, ms, k, a, b)
  {
    hide TableOf, ReadUnder, ShareOther, Side, SecondKey, Holders;
    var t := TableOf(lex, ms);
    if Corroborated(lex, t, k, a, b) {
      var p: nat, q: nat :|
        p in Holders(t, k) && q in Holders(t, k) &&
        Side(lex, t, k, p) == a && Side(lex, t, k, q) == b && SecondKey(t, k, p, q);
      ReadIff(lex, ms, k, p, a);
      ReadIff(lex, ms, k, q, b);
      ReadInside(lex, ms, k, p, a);
      ReadInside(lex, ms, k, q, b);
      ShareOtherIff(lex, ms, k, p, q);
    }
    if p: nat, q: nat :| ReadUnder(lex, ms, k, p, a) && ReadUnder(lex, ms, k, q, b) && ShareOther(lex, ms, k, p, q) {
      ReadIff(lex, ms, k, p, a);
      ReadIff(lex, ms, k, q, b);
      ReadInside(lex, ms, k, p, a);
      ReadInside(lex, ms, k, q, b);
      ShareOtherIff(lex, ms, k, p, q);
    }
  }

  lemma ReadAlike(lex: Lexicon, ms: seq<Mention>, k: Key, i: nat, j: nat, a: Option<string>, b: Option<string>)
    requires forall tag :: ReadUnder(lex, ms, k, i, tag) <==> tag == a
    requires forall tag :: ReadUnder(lex, ms, k, j, tag) <==> tag == b
    requires Bears(lex, ms, i, k) && Bears(lex, ms, j, k)
    ensures Joins(lex, ms, k, i, j) <==> !Conflicted(lex, ms, k) || a == b || Vouched(lex, ms, k, a, b)
  {
    hide Bears, ReadUnder, Vouched, Conflicted;
    assert ReadUnder(lex, ms, k, i, a) && ReadUnder(lex, ms, k, j, b);
  }

  /** The policy the components are computed with is the one said of the mentions. */
  lemma JoinsIff(lex: Lexicon, ms: seq<Mention>, k: Key, i: nat, j: nat)
    ensures LinksVia(lex, TableOf(lex, ms), AmbiguousKeys(lex, TableOf(lex, ms)), k, i, j) <==> Joins(lex, ms, k, i, j)
  {
    hide TableOf, Bears, Conflicted, AmbiguousKeys, Side, Corroborated, ReadUnder, ShareOther;
    if i >= |ms| || j >= |ms| {
      if Joins(lex, ms, k, i, j) { BearsIsListed(lex, ms, i, k); BearsIsListed(lex, ms, j, k); }
    } else {
      KeysIff(lex, ms, i, k);
      KeysIff(lex, ms, j, k);
      if Bears(lex, ms, i, k) && Bears(lex, ms, j, k) { JoinsWhenBorne(lex, ms, k, i, j); }
    }
  }

  lemma JoinsWhenBorne(lex: Lexicon, ms: seq<Mention>, k: Key, i: nat, j: nat)
    requires i < |ms| && j < |ms| && Bears(lex, ms, i, k) && Bears(lex, ms, j, k)
    ensures LinksVia(lex, TableOf(lex, ms), AmbiguousKeys(lex, TableOf(lex, ms)), k, i, j) <==> Joins(lex, ms, k, i, j)
  {
    hide TableOf, Bears, Conflicted, AmbiguousKeys, Side, Corroborated, ReadUnder, ShareOther, Joins;
    var t := TableOf(lex, ms);
    var a, b := Side(lex, t, k, i), Side(lex, t, k, j);
    KeysIff(lex, ms, i, k);
    KeysIff(lex, ms, j, k);
    AmbiguousIff(lex, ms, k);
    forall tag
      ensures ReadUnder(lex, ms, k, i, tag) <==> tag == a
      ensures ReadUnder(lex, ms, k, j, tag) <==> tag == b
    {
      SideIs(lex, ms, k, i, tag);
      SideIs(lex, ms, k, j, tag);
    }
    CorroboratedIff(lex, ms, k, a, b);
    ReadAlike(lex, ms, k, i, j, a, b);
  }

  ghost function StepOf(lex: Lexicon, ms: seq<Mention>): Link {
    (i: nat, j: nat) => exists k :: Joins(lex, ms, k, i, j)
  }

  lemma SameLinks(f: Link, g: Link, i: nat, j: nat)
    requires forall p: nat, q: nat :: f(p, q) <==> g(p, q)
    ensures Linked(f, i, j) <==> Linked(g, i, j)
  {
    if Linked(f, i, j) {
      var path: seq<nat> :| Connects(f, path, i, j);
      SameChain(f, g, path);
      assert Connects(g, path, i, j);
    }
    if Linked(g, i, j) {
      var path: seq<nat> :| Connects(g, path, i, j);
      SameChain(g, f, path);
      assert Connects(f, path, i, j);
    }
  }

  lemma SameChain(f: Link, g: Link, path: seq<nat>)
    requires Chain(f, path) && forall p: nat, q: nat :: f(p, q) <==> g(p, q)
    ensures Chain(g, path)
  {
    forall k | 0 <= k < |path| - 1 ensures g(path[k], path[k + 1]) || g(path[k + 1], path[k]) {
      assert f(path[k], path[k + 1]) || f(path[k + 1], path[k]);
    }
  }

  /** Two mentions of the ordered corpus are in one component exactly when a chain
      of mentions joined by keys leads from one to the other. */
  lemma ComponentIff(lex: Lexicon, ms: seq<Mention>, i: nat, j: nat)
    requires i < |ms| && j < |ms|
    ensures (exists x :: 0 <= x < |ClassList(lex, ms)| && i in ClassList(lex, ms)[x] && j in ClassList(lex, ms)[x])
            <==> Linked(StepOf(lex, ms), i, j)
  {
    hide TableOf, AmbiguousKeys, LinksVia, Joins, Classes, Linked;
    var t := TableOf(lex, ms);
    var link := EvidenceLink(lex, t, AmbiguousKeys(lex, t));
    var cs := ClassList(lex, ms);
    assert cs == Classes(link, |ms|);
    ClassesAreChains(link, |ms|, i, j);
    assert (exists x :: 0 <= x < |cs| && i in cs[x] && j in cs[x]) <==> Linked(link, i, j);
    forall p: nat, q: nat ensures link(p, q) <==> StepOf(lex, ms)(p, q) {
      forall k
        ensures LinksVia(lex, t, AmbiguousKeys(lex, t), k, p, q) <==> Joins(lex, ms, k, p, q)
      {
        JoinsIff(lex, ms, k, p, q);
      }
    }
    SameLinks(link, StepOf(lex, ms), i, j);
  }

  /** An alias that reads as another mention's specific name makes the two one
      component, unless the corpus shows different people under that key. */
  lemma AliasMerges(lex: Lexicon, ms: seq<Mention>, i: nat, alias: string, j: nat)
    requires i < |ms| && j < |ms| && alias in ms[i].aliases && NormName(lex, alias) == NormName(lex, ms[j].name)
    requires Specific(lex, NormName(lex, alias)) && !Conflicted(lex, ms, NormName(lex, alias))
    ensures exists x :: 0 <= x < |ComponentsOf(lex, ms)| && ms[i] in ComponentsOf(lex, ms)[x]
                        && ms[j] in ComponentsOf(lex, ms)[x]
  {
    hide Conflicted, NormName, Specific, ReadUnder, ShareOther, Classes;
    var k := NormName(lex, alias);
    assert ms[j] in ms;
    assert Joins(lex, ms, k, i, j);
    assert StepOf(lex, ms)(i, j);
    LinkedStep(StepOf(lex, ms), i, j);
    ComponentIff(lex, ms, i, j);
    var cs := ClassList(lex, ms);
    var x :| 0 <= x < |cs| && i in cs[x] && j in cs[x];
    PickHas(ms, cs[x], i);
    PickHas(ms, cs[x], j);
    assert ms[i] in ComponentsOf(lex, ms)[x] && ms[j] in ComponentsOf(lex, ms)[x];
  }
}
