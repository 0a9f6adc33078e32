/** `compute_components`: the union-find driven by the merge policy, and what
    its result means. */
module Components {
  import opened Schemas
  import opened UnionFind
  import opened Merge
  import Order

  // ----- key_to_indices -----

  predicate Indexed(t: Table, index: map<Key, seq<nat>>, k: Key, n: nat)
    requires n <= |t|
  {
    var hs := HoldersUpTo(t, k, n);
    if hs == [] then k !in index else k in index && index[k] == hs
  }

  /** The dictionary from a key to the indices of the mentions holding it. */
  method IndexKeys(t: Table) returns (index: map<Key, seq<nat>>)
    ensures index.Keys == AllKeys(t)
    ensures forall k :: k in index ==> index[k] == Holders(t, k)
  {
    index := map[];
    for i := 0 to |t|
      invariant forall k :: Indexed(t, index, k, i)
    {
      index := IndexMention(t, index, i, i + 1);
    }
    forall k ensures k in index.Keys <==> k in AllKeys(t) {
      assert Indexed(t, index, k, |t|);
      if k in index {
        assert Holders(t, k)[0] in Holders(t, k);
        HoldersMembers(t, k, |t|, Holders(t, k)[0]);
      }
      if k in AllKeys(t) {
        var i :| 0 <= i < |t| && k in t[i];
        HoldersMembers(t, k, |t|, i);
      }
    }
    assert forall k :: k in index ==> Indexed(t, index, k, |t|);
  }

  method IndexMention(t: Table, was: map<Key, seq<nat>>, i: nat, ghost next: nat) returns (index: map<Key, seq<nat>>)
    requires i < |t| && next == i + 1 && forall k :: Indexed(t, was, k, i)
    ensures forall k :: Indexed(t, index, k, next)
  {
    index := was;
    forall k | k !in t[i] ensures Indexed(t, index, k, next) { assert Indexed(t, was, k, i); }
    var todo := t[i].Keys;
    while todo != {}
      invariant todo <= t[i].Keys
      invariant forall k :: k in todo ==> Indexed(t, index, k, i)
      invariant forall k :: k !in todo ==> Indexed(t, index, k, next)
    {
      var key :| key in todo;
      ghost var prior := index;
      assert Indexed(t, prior, key, i);
      index := index[key := (if key in index then index[key] else []) + [i]];
      todo := todo - {key};
      assert Indexed(t, index, key, next);
      forall k | k != key && k !in todo ensures Indexed(t, index, k, next) { assert Indexed(t, prior, k, next); }
      forall k | k in todo ensures Indexed(t, index, k, i) { assert Indexed(t, prior, k, i); }
    }
  }

  // ----- _detect_ambiguous_keys -----

  lemma TwoKindsOfTags(tags: set<string>, rel: set<string>, dist: set<string>)
    requires rel == set s | s in tags && !(OTHER <= s)
    requires dist == set s | s in tags && OTHER <= s
    ensures |tags| == |rel| + |dist|
  {
    assert tags == rel + dist && rel !! dist;
  }

  method TwoIdentities(tags: set<string>) returns (conflicting: bool)
    ensures conflicting <==> |tags| >= 2
  {
    var relationship := set s | s in tags && !(OTHER <= s);
    var distinguishing := set s | s in tags && OTHER <= s;
    TwoKindsOfTags(tags, relationship, distinguishing);
    conflicting := |relationship| >= 2 || |distinguishing| >= 2 || (relationship != {} && distinguishing != {});
  }

  /** Two relationship tags, two distinguishing words, or one of each: that is,
      exactly two distinct tags of whatever kind. */
  method DetectAmbiguousKeys(lex: Lexicon, t: Table, index: map<Key, seq<nat>>) returns (ambiguous: set<Key>)
    requires index.Keys == AllKeys(t) && forall k :: k in index ==> index[k] == Holders(t, k)
    ensures ambiguous == AmbiguousKeys(lex, t)
  {
    var weak := set k | k in index && IsWeak(lex, k);
    ambiguous := {};
    var todo := weak;
    while todo != {}
      invariant todo <= weak
      invariant forall k :: k in ambiguous <==> k in weak && k !in todo && Ambiguous(lex, t, k)
    {
      var key :| key in todo;
      var conflicting := TwoIdentities(TagSet(ShownTags(lex, t, key, index[key])));
      if conflicting {
        ambiguous := ambiguous + {key};
      }
      todo := todo - {key};
    }
  }

  // ----- _resolve_ambiguous_keys: one key -----

  function Tagged(lex: Lexicon, t: Table, key: Key, tag: Option<string>, hs: seq<nat>): seq<nat> {
    Filter(i => TagAt(lex, t, key, i) == tag, hs)
  }

  lemma TaggedNext(lex: Lexicon, t: Table, key: Key, tag: Option<string>, hs: seq<nat>, h: nat)
    requires h < |hs|
    ensures Tagged(lex, t, key, tag, hs[..h + 1]) ==
            Tagged(lex, t, key, tag, hs[..h]) + if TagAt(lex, t, key, hs[h]) == tag then [hs[h]] else []
  {
    hide TagAt;
    FilterAppend(i => TagAt(lex, t, key, i) == tag, hs[..h], hs[h]);
    assert hs[..h] + [hs[h]] == hs[..h + 1];
  }

  /** `tag_groups`, with the dictionary's insertion order. */
  method GroupByTag(lex: Lexicon, t: Table, key: Key, holders: seq<nat>)
    returns (groups: map<Option<string>, seq<nat>>, order: seq<Option<string>>)
    ensures forall tag :: tag in groups <==> tag in order
    ensures forall tag :: tag in groups <==> Tagged(lex, t, key, tag, holders) != []
    ensures forall tag :: tag in groups ==> groups[tag] == Tagged(lex, t, key, tag, holders)
  {
    hide TagAt;
    groups, order := map[], [];
    for h := 0 to |holders|
      invariant forall tag :: tag in groups <==> tag in order
      invariant forall tag :: tag in groups <==> Tagged(lex, t, key, tag, holders[..h]) != []
      invariant forall tag :: tag in groups ==> groups[tag] == Tagged(lex, t, key, tag, holders[..h])
    {
      var tag := TagAt(lex, t, key, holders[h]);
      forall u
        ensures Tagged(lex, t, key, u, holders[..h + 1]) ==
                Tagged(lex, t, key, u, holders[..h]) + if tag == u then [holders[h]] else []
      {
        TaggedNext(lex, t, key, u, holders, h);
      }
      if tag !in groups { order := order + [tag]; }
      groups := groups[tag := (if tag in groups then groups[tag] else []) + [holders[h]]];
    }
    assert holders[..|holders|] == holders;
  }

  lemma {:induction false} GroupSizeIsTagCount(lex: Lexicon, t: Table, key: Key, s: string, hs: seq<nat>)
    ensures |Tagged(lex, t, key, Some(s), hs)| == multiset(ShownTags(lex, t, key, hs))[s]
  {
    if hs != [] {
      GroupSizeIsTagCount(lex, t, key, s, hs[..|hs| - 1]);
    }
  }

  predicate Beats(counts: map<string, nat>, a: string, b: string)
    requires a in counts && b in counts
  {
    counts[a] > counts[b] || (counts[a] == counts[b] && Order.StrLe(a, b))
  }

  /** `max(sorted(tag_counts), key=tag_counts.get)`: the first maximum in sorted order. */
  method MostFrequent(counts: map<string, nat>, tags: seq<string>) returns (best: string)
    requires tags != [] && forall s :: s in tags ==> s in counts
    ensures best in tags
    ensures forall s :: s in tags ==> Beats(counts, best, s)
  {
    Order.SortedStrings(tags);
    var sorted := Order.SortBy(tags, Order.StrLe);
    best := FirstMaximum(counts, sorted);
  }

  method FirstMaximum(counts: map<string, nat>, sorted: seq<string>) returns (best: string)
    requires sorted != [] && Order.Sorted(sorted, Order.StrLe)
    requires forall s :: s in sorted ==> s in counts
    ensures best in sorted
    ensures forall s :: s in sorted ==> Beats(counts, best, s)
  {
    best := sorted[0];
    ghost var at := 0;
    Order.StrLeTotal(best, best);
    for x := 1 to |sorted|
      invariant 0 <= at < x && best == sorted[at]
      invariant forall y :: 0 <= y < x ==> sorted[y] in counts && Beats(counts, best, sorted[y])
    {
      assert sorted[x] in counts;
      if counts[sorted[x]] > counts[best] {
        best, at := sorted[x], x;
        Order.StrLeTotal(best, best);
      } else {
        assert Order.StrLe(sorted[at], sorted[x]);
      }
    }
  }

  function Named(order: seq<Option<string>>): seq<string> {
    if order == [] then []
    else Named(order[..|order| - 1]) + match order[|order| - 1] { case Some(s) => [s] case None => [] }
  }

  lemma {:induction false} NamedMembers(order: seq<Option<string>>, s: string)
    ensures s in Named(order) <==> Some(s) in order
  {
    if order != [] {
      NamedMembers(order[..|order| - 1], s);
      assert order == order[..|order| - 1] + [order[|order| - 1]];
    }
  }

  /** `anchor_tag`, from the sizes of the tag groups. */
  method AnchorTag(lex: Lexicon, t: Table, key: Key, holders: seq<nat>, groups: map<Option<string>, seq<nat>>,
                   order: seq<Option<string>>)
    returns (anchor: Option<string>)
    requires forall tag :: tag in groups <==> tag in order
    requires forall tag :: tag in groups <==> Tagged(lex, t, key, tag, holders) != []
    requires forall tag :: tag in groups ==> groups[tag] == Tagged(lex, t, key, tag, holders)
    ensures anchor == Anchor(ShownTags(lex, t, key, holders))
  {
    ghost var shown := ShownTags(lex, t, key, holders);
    var counts: map<string, nat> := map tag | tag in groups && tag.Some? :: tag.value := |groups[tag]|;
    var tags := Named(order);
    forall s ensures s in tags <==> s in shown
             ensures s in tags ==> s in counts && counts[s] == multiset(shown)[s]
    {
      NamedMembers(order, s);
      GroupSizeIsTagCount(lex, t, key, s, holders);
      assert s in shown <==> multiset(shown)[s] > 0;
      assert Some(s) in groups ==> Some(s).Some?;
    }
    assert shown != [] ==> shown[0] in tags;
    if tags == [] {
      anchor := None;
    } else {
      var best := MostFrequent(counts, tags);
      anchor := Some(best);
      assert best in shown;
      forall u | u in shown ensures Preferred(shown, best, u) { assert Beats(counts, best, u); }
      AnchorIsMostFrequent(shown, best);
    }
  }

  /** What the groups of an ambiguous key are: `anchor_members` first, then the
      minority groups, each holding exactly the mentions on one side. */
  ghost predicate GroupedBySide(lex: Lexicon, t: Table, key: Key, gs: seq<seq<nat>>, sides: seq<Option<string>>) {
    && |gs| == |sides|
    && (forall x :: 0 <= x < |gs| ==> gs[x] != [])
    && (forall x, i: nat :: 0 <= x < |gs| ==> (i in gs[x] <==> OnSide(lex, t, key, sides[x], i)))
    && (forall i: nat :: i < |t| && key in t[i] ==> Side(lex, t, key, i) in sides)
  }

  function GetOrEmpty(groups: map<Option<string>, seq<nat>>, tag: Option<string>): seq<nat> {
    if tag in groups then groups[tag] else []
  }

  predicate HoldsTag(lex: Lexicon, t: Table, key: Key, tag: Option<string>, i: nat) {
    i < |t| && key in t[i] && TagAt(lex, t, key, i) == tag
  }

  predicate OnSide(lex: Lexicon, t: Table, key: Key, side: Option<string>, i: nat) {
    i < |t| && key in t[i] && Side(lex, t, key, i) == side
  }

  ghost predicate GroupsByTag(lex: Lexicon, t: Table, key: Key, groups: map<Option<string>, seq<nat>>) {
    forall tag, i: nat :: i in GetOrEmpty(groups, tag) <==> HoldsTag(lex, t, key, tag, i)
  }

  lemma TaggedMembers(lex: Lexicon, t: Table, key: Key, tag: Option<string>, i: nat)
    ensures i in Tagged(lex, t, key, tag, Holders(t, key)) <==> HoldsTag(lex, t, key, tag, i)
  {
    FilterMembers(m => TagAt(lex, t, key, m) == tag, Holders(t, key), i);
    HoldersMembers(t, key, |t|, i);
  }

  lemma TagIsShown(lex: Lexicon, t: Table, key: Key, s: string, i: nat)
    requires HoldsTag(lex, t, key, Some(s), i)
    ensures s in TagsOf(lex, t, key)
  {
    TaggedMembers(lex, t, key, Some(s), i);
    GroupSizeIsTagCount(lex, t, key, s, Holders(t, key));
    assert multiset(TagsOf(lex, t, key))[s] > 0;
  }

  lemma ShownTagIsHeld(lex: Lexicon, t: Table, key: Key, s: string) returns (i: nat)
    requires s in TagsOf(lex, t, key)
    ensures HoldsTag(lex, t, key, Some(s), i)
  {
    GroupSizeIsTagCount(lex, t, key, s, Holders(t, key));
    assert multiset(TagsOf(lex, t, key))[s] > 0;
    i := Tagged(lex, t, key, Some(s), Holders(t, key))[0];
    assert i in Tagged(lex, t, key, Some(s), Holders(t, key));
    TaggedMembers(lex, t, key, Some(s), i);
  }

  /** The anchor's side is never empty. */
  lemma HolderOnAnchorSide(lex: Lexicon, t: Table, key: Key) returns (i: nat)
    requires Holders(t, key) != []
    ensures OnSide(lex, t, key, Anchor(TagsOf(lex, t, key)), i)
  {
    var shown := TagsOf(lex, t, key);
    if shown == [] {
      i := Holders(t, key)[0];
      assert i in Holders(t, key);
      HoldersMembers(t, key, |t|, i);
      if TagAt(lex, t, key, i).Some? { TagIsShown(lex, t, key, TagAt(lex, t, key, i).value, i); }
    } else {
      AnchorIsMostFrequent(shown, shown[0]);
      i := ShownTagIsHeld(lex, t, key, Anchor(shown).value);
    }
  }

  ghost predicate Listing(groups: map<Option<string>, seq<nat>>, anchor: Option<string>, gs: seq<seq<nat>>,
                          sides: seq<Option<string>>)
  {
    && |gs| == |sides| && |gs| > 0
    && gs[0] == GetOrEmpty(groups, anchor) + GetOrEmpty(groups, None) && sides[0] == anchor
    && (forall y :: 1 <= y < |gs| ==>
          sides[y].Some? && sides[y] != anchor && sides[y] in groups && gs[y] == GetOrEmpty(groups, sides[y]))
    && (forall tag :: tag in groups && tag.Some? ==> tag in sides)
  }

  /** `minority_groups`, preceded by `anchor_members`. */
  method ListGroups(groups: map<Option<string>, seq<nat>>, order: seq<Option<string>>, anchor: Option<string>)
    returns (gs: seq<seq<nat>>, ghost sides: seq<Option<string>>)
    requires forall tag :: tag in groups <==> tag in order
    ensures Listing(groups, anchor, gs, sides)
  {
    gs, sides := [GetOrEmpty(groups, anchor) + GetOrEmpty(groups, None)], [anchor];
    for x := 0 to |order|
      invariant |gs| == |sides| && |gs| > 0
      invariant gs[0] == GetOrEmpty(groups, anchor) + GetOrEmpty(groups, None) && sides[0] == anchor
      invariant forall y :: 1 <= y < |gs| ==>
        sides[y].Some? && sides[y] != anchor && sides[y] in groups && gs[y] == GetOrEmpty(groups, sides[y])
      invariant forall y :: 0 <= y < x ==> order[y] == None || order[y] in sides
    {
      assert order[x] in order;
      if order[x].Some? && order[x] != anchor {
        gs, sides := gs + [groups[order[x]]], sides + [order[x]];
        assert sides[|sides| - 1] == order[x];
      } else if order[x].Some? {
        assert sides[0] == order[x];
      }
    }
  }

  method GroupBySide(lex: Lexicon, t: Table, key: Key, holders: seq<nat>)
    returns (gs: seq<seq<nat>>, ghost sides: seq<Option<string>>)
    requires holders == Holders(t, key) && holders != []
    ensures GroupedBySide(lex, t, key, gs, sides)
  {
    var groups, order := GroupByTag(lex, t, key, holders);
    var anchor := AnchorTag(lex, t, key, holders, groups, order);
    gs, sides := ListGroups(groups, order, anchor);
    forall tag, i: nat ensures i in GetOrEmpty(groups, tag) <==> HoldsTag(lex, t, key, tag, i) {
      TaggedMembers(lex, t, key, tag, i);
    }
    ListedBySide(lex, t, key, groups, gs, sides);
  }

  lemma ListedBySide(lex: Lexicon, t: Table, key: Key, groups: map<Option<string>, seq<nat>>, gs: seq<seq<nat>>,
                     sides: seq<Option<string>>)
    requires Holders(t, key) != [] && GroupsByTag(lex, t, key, groups)
    requires forall tag :: tag in groups ==> groups[tag] != []
    requires Listing(groups, Anchor(TagsOf(lex, t, key)), gs, sides)
    ensures GroupedBySide(lex, t, key, gs, sides)
  {
    hide TagAt, Side, Anchor, TagsOf;
    forall x, i: nat | 0 <= x < |gs| ensures i in gs[x] <==> OnSide(lex, t, key, sides[x], i) {
      ListedMember(lex, t, key, groups, gs, sides, x, i);
    }
    var first := HolderOnAnchorSide(lex, t, key);
    assert first in gs[0];
    forall i: nat | i < |t| && key in t[i] ensures Side(lex, t, key, i) in sides {
      SideIsListed(lex, t, key, groups, gs, sides, i);
    }
  }

  lemma ListedMember(lex: Lexicon, t: Table, key: Key, groups: map<Option<string>, seq<nat>>, gs: seq<seq<nat>>,
                     sides: seq<Option<string>>, x: nat, i: nat)
    requires GroupsByTag(lex, t, key, groups) && Listing(groups, Anchor(TagsOf(lex, t, key)), gs, sides) && x < |gs|
    ensures i in gs[x] <==> OnSide(lex, t, key, sides[x], i)
  {
    hide TagAt, Side, Anchor, TagsOf;
    SideMembers(lex, t, key, groups, sides[x], i);
  }

  lemma SideIsListed(lex: Lexicon, t: Table, key: Key, groups: map<Option<string>, seq<nat>>, gs: seq<seq<nat>>,
                     sides: seq<Option<string>>, i: nat)
    requires GroupsByTag(lex, t, key, groups) && Listing(groups, Anchor(TagsOf(lex, t, key)), gs, sides)
    requires i < |t| && key in t[i]
    ensures Side(lex, t, key, i) in sides
  {
    var tag := TagAt(lex, t, key, i);
    assert HoldsTag(lex, t, key, tag, i);
    assert i in GetOrEmpty(groups, tag);
    assert sides[0] in sides;
  }

  lemma SideMembers(lex: Lexicon, t: Table, key: Key, groups: map<Option<string>, seq<nat>>, side: Option<string>,
                    i: nat)
    requires GroupsByTag(lex, t, key, groups) && (side.Some? || side == Anchor(TagsOf(lex, t, key)))
    ensures OnSide(lex, t, key, side, i) <==>
              || i in GetOrEmpty(groups, side)
              || (side == Anchor(TagsOf(lex, t, key)) && i in GetOrEmpty(groups, None))
  {
    assert i in GetOrEmpty(groups, side) <==> HoldsTag(lex, t, key, side, i);
    assert i in GetOrEmpty(groups, None) <==> HoldsTag(lex, t, key, None, i);
  }
}
