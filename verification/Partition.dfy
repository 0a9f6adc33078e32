/** The partition `compute_components` ends with: acting on every key in any
    order leaves exactly the classes of the merge policy. */
module Partition {
  import opened Schemas
  import opened UnionFind
  import opened Merge
  import opened Components
  import Order

  // ----- one ambiguous key -----

  /** `any((keys_i & keys_j) - {key} for i in group for j in other_group)` */
  predicate GroupsCorroborate(t: Table, key: Key, g: seq<nat>, h: seq<nat>) {
    exists i, j :: i in g && j in h && SecondKey(t, key, i, j)
  }

  /** What the caller promises about the groups of a key, and what their unions achieve. */
  ghost predicate GroupsLinked(t: Table, key: Key, gs: seq<seq<nat>>, link: Link) {
    && (forall x :: 0 <= x < |gs| ==> gs[x] != [])
    && (forall x, m :: 0 <= x < |gs| && m in gs[x] ==> m < |t| && Linked(link, gs[x][0], m))
    && (forall x, y :: 0 <= x < |gs| && 0 <= y < |gs| && GroupsCorroborate(t, key, gs[x], gs[y]) ==>
          Linked(link, gs[x][0], gs[y][0]))
  }

  ghost predicate SameRoot(p: seq<nat>, i: nat, j: nat) {
    Forest(p) && i < |p| && j < |p| && Root(p, i) == Root(p, j)
  }

  ghost predicate PairJoined(p: seq<nat>, t: Table, key: Key, g: seq<nat>, h: seq<nat>) {
    g != [] && h != [] && (GroupsCorroborate(t, key, g, h) ==> SameRoot(p, g[0], h[0]))
  }

  lemma CoarserKeeps(p: seq<nat>, q: seq<nat>, i: nat, j: nat)
    requires Coarser(p, q) && SameRoot(p, i, j)
    ensures SameRoot(q, i, j)
  {
    assert Root(q, i) == Root(q, j);
  }

  lemma CoarserKeepsClass(p: seq<nat>, q: seq<nat>, members: seq<nat>)
    requires Coarser(p, q) && OneClass(p, members)
    ensures OneClass(q, members)
  {
    forall x | 0 <= x < |members|
      ensures members[x] < |q| && members[0] < |q| && Root(q, members[x]) == Root(q, members[0])
    {
      CoarserKeeps(p, q, members[x], members[0]);
    }
  }

  lemma CoarserTransitive(p: seq<nat>, q: seq<nat>, r: seq<nat>)
    requires Coarser(p, q) && Coarser(q, r)
    ensures Coarser(p, r)
  {
    forall i: nat, j: nat | i < |p| && j < |p| && Root(p, i) == Root(p, j) ensures Root(r, i) == Root(r, j) {
      CoarserKeeps(p, q, i, j);
      CoarserKeeps(q, r, i, j);
    }
  }

  /** Unify each group, and join `gs[x]` with every group that corroborates it. */
  method JoinGroup(parent: array<nat>, t: Table, key: Key, gs: seq<seq<nat>>, x: nat, ghost link: Link)
    requires parent.Length == |t| && x < |gs|
    requires GroupsLinked(t, key, gs, link) && Sound(parent[..], link)
    modifies parent
    ensures Sound(parent[..], link) && Coarser(old(parent[..]), parent[..])
    ensures forall y :: 0 <= y < |gs| && y != x ==> PairJoined(parent[..], t, key, gs[x], gs[y])
  {
    for y := 0 to |gs|
      invariant Sound(parent[..], link) && Coarser(old(parent[..]), parent[..])
      invariant forall z :: 0 <= z < y && z != x ==> PairJoined(parent[..], t, key, gs[x], gs[z])
    {
      if y != x && GroupsCorroborate(t, key, gs[x], gs[y]) {
        ghost var p := parent[..];
        assert gs[x][0] in gs[x] && gs[y][0] in gs[y];
        Union(parent, gs[x][0], gs[y][0]);
        JoinedIsCoarser(p, parent[..], gs[x][0], gs[y][0]);
        JoinedKeepsSound(p, parent[..], gs[x][0], gs[y][0], link);
        CoarserTransitive(old(parent[..]), p, parent[..]);
        forall z | 0 <= z < y && z != x ensures PairJoined(parent[..], t, key, gs[x], gs[z]) {
          assert PairJoined(p, t, key, gs[x], gs[z]);
          if GroupsCorroborate(t, key, gs[x], gs[z]) { CoarserKeeps(p, parent[..], gs[x][0], gs[z][0]); }
        }
      }
    }
  }

  method MergeGroups(parent: array<nat>, t: Table, key: Key, gs: seq<seq<nat>>, ghost link: Link)
    requires parent.Length == |t| && |gs| > 0
    requires GroupsLinked(t, key, gs, link) && Sound(parent[..], link)
    modifies parent
    ensures Sound(parent[..], link) && Coarser(old(parent[..]), parent[..])
    ensures forall x :: 0 <= x < |gs| ==> OneClass(parent[..], gs[x])
    ensures forall x, y :: 1 <= x < |gs| && 0 <= y < |gs| && y != x ==> PairJoined(parent[..], t, key, gs[x], gs[y])
  {
    UnionAll(parent, gs[0], link);
    for x := 1 to |gs|
      invariant Sound(parent[..], link) && Coarser(old(parent[..]), parent[..])
      invariant forall z :: 0 <= z < x ==> OneClass(parent[..], gs[z])
      invariant forall z, y :: 1 <= z < x && 0 <= y < |gs| && y != z ==> PairJoined(parent[..], t, key, gs[z], gs[y])
    {
      ghost var p := parent[..];
      UnionAll(parent, gs[x], link);
      ghost var q := parent[..];
      JoinGroup(parent, t, key, gs, x, link);
      CoarserTransitive(p, q, parent[..]);
      CoarserTransitive(old(parent[..]), p, parent[..]);
      CoarserKeepsClass(q, parent[..], gs[x]);
      forall z | 0 <= z < x ensures OneClass(parent[..], gs[z]) { CoarserKeepsClass(p, parent[..], gs[z]); }
      forall z, y | 1 <= z < x && 0 <= y < |gs| && y != z
        ensures PairJoined(parent[..], t, key, gs[z], gs[y])
      {
        assert PairJoined(p, t, key, gs[z], gs[y]);
        if GroupsCorroborate(t, key, gs[z], gs[y]) { CoarserKeeps(p, parent[..], gs[z][0], gs[y][0]); }
      }
    }
  }

  /** Every step the policy allows through `key` has been taken. */
  ghost predicate Settled(p: seq<nat>, lex: Lexicon, t: Table, ambiguous: set<Key>, key: Key) {
    Forest(p) && |p| == |t| && forall i: nat, j: nat :: LinksVia(lex, t, ambiguous, key, i, j) ==> SameRoot(p, i, j)
  }

  lemma CoarserKeepsSettled(p: seq<nat>, q: seq<nat>, lex: Lexicon, t: Table, ambiguous: set<Key>, key: Key)
    requires Coarser(p, q) && Settled(p, lex, t, ambiguous, key)
    ensures Settled(q, lex, t, ambiguous, key)
  {
    forall i: nat, j: nat | LinksVia(lex, t, ambiguous, key, i, j)
      ensures SameRoot(q, i, j)
    {
      CoarserKeeps(p, q, i, j);
    }
  }

  lemma PolicyLinks(lex: Lexicon, t: Table, ambiguous: set<Key>, key: Key, i: nat, j: nat)
    requires LinksVia(lex, t, ambiguous, key, i, j)
    ensures Linked(EvidenceLink(lex, t, ambiguous), i, j)
  {
    LinkedStep(EvidenceLink(lex, t, ambiguous), i, j);
  }

  /** Two groups corroborate each other iff their sides do. */
  lemma GroupsCorroborateBySide(lex: Lexicon, t: Table, key: Key, gs: seq<seq<nat>>, sides: seq<Option<string>>, x: nat,
                                y: nat)
    requires GroupedBySide(lex, t, key, gs, sides) && x < |gs| && y < |gs|
    ensures GroupsCorroborate(t, key, gs[x], gs[y]) <==> Corroborated(lex, t, key, sides[x], sides[y])
  {
    if GroupsCorroborate(t, key, gs[x], gs[y]) {
      var i, j :| i in gs[x] && j in gs[y] && SecondKey(t, key, i, j);
      assert OnSide(lex, t, key, sides[x], i) && OnSide(lex, t, key, sides[y], j);
      HoldersMembers(t, key, |t|, i);
      HoldersMembers(t, key, |t|, j);
    }
    if Corroborated(lex, t, key, sides[x], sides[y]) {
      var i: nat, j: nat :| i in Holders(t, key) && j in Holders(t, key) &&
        Side(lex, t, key, i) == sides[x] && Side(lex, t, key, j) == sides[y] && SecondKey(t, key, i, j);
      HoldersMembers(t, key, |t|, i);
      HoldersMembers(t, key, |t|, j);
      assert OnSide(lex, t, key, sides[x], i) && OnSide(lex, t, key, sides[y], j);
    }
  }

  lemma GroupsAreLinked(lex: Lexicon, t: Table, ambiguous: set<Key>, key: Key, gs: seq<seq<nat>>,
                        sides: seq<Option<string>>)
    requires GroupedBySide(lex, t, key, gs, sides)
    ensures GroupsLinked(t, key, gs, EvidenceLink(lex, t, ambiguous))
  {
    var link := EvidenceLink(lex, t, ambiguous);
    forall x, m | 0 <= x < |gs| && m in gs[x] ensures m < |t| && Linked(link, gs[x][0], m) {
      assert gs[x][0] in gs[x];
      assert OnSide(lex, t, key, sides[x], m) && OnSide(lex, t, key, sides[x], gs[x][0]);
      PolicyLinks(lex, t, ambiguous, key, gs[x][0], m);
    }
    forall x, y | 0 <= x < |gs| && 0 <= y < |gs| && GroupsCorroborate(t, key, gs[x], gs[y])
      ensures Linked(link, gs[x][0], gs[y][0])
    {
      GroupsCorroborateBySide(lex, t, key, gs, sides, x, y);
      assert gs[x][0] in gs[x] && gs[y][0] in gs[y];
      assert OnSide(lex, t, key, sides[x], gs[x][0]) && OnSide(lex, t, key, sides[y], gs[y][0]);
      PolicyLinks(lex, t, ambiguous, key, gs[x][0], gs[y][0]);
    }
  }

  lemma CorroborationIsMutual(t: Table, key: Key, g: seq<nat>, h: seq<nat>)
    requires GroupsCorroborate(t, key, g, h)
    ensures GroupsCorroborate(t, key, h, g)
  {
    var i, j :| i in g && j in h && SecondKey(t, key, i, j);
    assert t[j].Keys * t[i].Keys == t[i].Keys * t[j].Keys;
    assert SecondKey(t, key, j, i);
  }

  lemma MergedGroupsSettle(p: seq<nat>, lex: Lexicon, t: Table, ambiguous: set<Key>, key: Key, gs: seq<seq<nat>>,
                           sides: seq<Option<string>>)
    requires Forest(p) && |p| == |t| && key in ambiguous && GroupedBySide(lex, t, key, gs, sides)
    requires forall x :: 0 <= x < |gs| ==> OneClass(p, gs[x])
    requires forall x, y :: 1 <= x < |gs| && 0 <= y < |gs| && y != x ==> PairJoined(p, t, key, gs[x], gs[y])
    ensures Settled(p, lex, t, ambiguous, key)
  {
    forall i: nat, j: nat | LinksVia(lex, t, ambiguous, key, i, j) ensures SameRoot(p, i, j) {
      var x :| 0 <= x < |sides| && sides[x] == Side(lex, t, key, i);
      var y :| 0 <= y < |sides| && sides[y] == Side(lex, t, key, j);
      assert OnSide(lex, t, key, sides[x], i) && OnSide(lex, t, key, sides[y], j);
      var a :| 0 <= a < |gs[x]| && gs[x][a] == i;
      var b :| 0 <= b < |gs[y]| && gs[y][b] == j;
      assert SameRoot(p, i, gs[x][0]) && SameRoot(p, j, gs[y][0]);
      if sides[x] == sides[y] {
        assert OnSide(lex, t, key, sides[x], j);
        var c :| 0 <= c < |gs[x]| && gs[x][c] == j;
        assert SameRoot(p, j, gs[x][0]);
      } else {
        GroupsCorroborateBySide(lex, t, key, gs, sides, x, y);
        CorroborationIsMutual(t, key, gs[x], gs[y]);
        assert x >= 1 ==> PairJoined(p, t, key, gs[x], gs[y]);
        assert y >= 1 ==> PairJoined(p, t, key, gs[y], gs[x]);
      }
    }
  }

  /** One turn of `_resolve_ambiguous_keys`. */
  method ResolveKey(lex: Lexicon, t: Table, ghost ambiguous: set<Key>, key: Key, holders: seq<nat>, parent: array<nat>)
    requires key in ambiguous && holders == Holders(t, key) && holders != []
    requires parent.Length == |t| && Sound(parent[..], EvidenceLink(lex, t, ambiguous))
    modifies parent
    ensures Sound(parent[..], EvidenceLink(lex, t, ambiguous)) && Coarser(old(parent[..]), parent[..])
    ensures Settled(parent[..], lex, t, ambiguous, key)
  {
    var gs, sides := GroupBySide(lex, t, key, holders);
    HoldersMembers(t, key, |t|, holders[0]);
    assert Side(lex, t, key, holders[0]) in sides;
    GroupsAreLinked(lex, t, ambiguous, key, gs, sides);
    MergeGroups(parent, t, key, gs, EvidenceLink(lex, t, ambiguous));
    MergedGroupsSettle(parent[..], lex, t, ambiguous, key, gs, sides);
  }

  /** `_resolve_ambiguous_keys`; the set is iterated in no particular order. */
  method ResolveAmbiguousKeys(lex: Lexicon, t: Table, ambiguous: set<Key>, index: map<Key, seq<nat>>,
                              parent: array<nat>)
    requires ambiguous <= AllKeys(t) == index.Keys && forall k :: k in index ==> index[k] == Holders(t, k)
    requires parent.Length == |t| && Sound(parent[..], EvidenceLink(lex, t, ambiguous))
    modifies parent
    ensures Sound(parent[..], EvidenceLink(lex, t, ambiguous)) && Coarser(old(parent[..]), parent[..])
    ensures forall k :: k in ambiguous ==> Settled(parent[..], lex, t, ambiguous, k)
  {
    var todo := ambiguous;
    while todo != {}
      invariant todo <= ambiguous
      invariant Sound(parent[..], EvidenceLink(lex, t, ambiguous)) && Coarser(old(parent[..]), parent[..])
      invariant forall k :: k in ambiguous - todo ==> Settled(parent[..], lex, t, ambiguous, k)
    {
      var key :| key in todo;
      ghost var p := parent[..];
      HeldKeyHasHolders(t, key);
      ResolveKey(lex, t, ambiguous, key, index[key], parent);
      CoarserTransitive(old(parent[..]), p, parent[..]);
      forall k | k in ambiguous - todo ensures Settled(parent[..], lex, t, ambiguous, k) {
        CoarserKeepsSettled(p, parent[..], lex, t, ambiguous, k);
      }
      todo := todo - {key};
    }
  }

  lemma HeldKeyHasHolders(t: Table, key: Key)
    requires key in AllKeys(t)
    ensures Holders(t, key) != []
  {
    var i :| 0 <= i < |t| && key in t[i];
    HoldersMembers(t, key, |t|, i);
  }

  lemma HoldersShareKey(lex: Lexicon, t: Table, ambiguous: set<Key>, key: Key)
    requires key !in ambiguous && Holders(t, key) != []
    ensures forall m :: m in Holders(t, key) ==> m < |t|
    ensures forall m :: m in Holders(t, key) ==> Linked(EvidenceLink(lex, t, ambiguous), Holders(t, key)[0], m)
  {
    var hs := Holders(t, key);
    forall m | m in hs ensures m < |t| && Linked(EvidenceLink(lex, t, ambiguous), hs[0], m) {
      assert hs[0] in hs;
      HoldersMembers(t, key, |t|, m);
      HoldersMembers(t, key, |t|, hs[0]);
      PolicyLinks(lex, t, ambiguous, key, hs[0], m);
    }
  }

  lemma MergedHoldersSettle(p: seq<nat>, lex: Lexicon, t: Table, ambiguous: set<Key>, key: Key)
    requires Forest(p) && |p| == |t| && OneClass(p, Holders(t, key))
    ensures Settled(p, lex, t, ambiguous, key)
  {
    var hs := Holders(t, key);
    forall i: nat, j: nat | LinksVia(lex, t, ambiguous, key, i, j) ensures SameRoot(p, i, j) {
      HoldersMembers(t, key, |t|, i);
      HoldersMembers(t, key, |t|, j);
      var a :| 0 <= a < |hs| && hs[a] == i;
      var b :| 0 <= b < |hs| && hs[b] == j;
      assert SameRoot(p, i, hs[0]) && SameRoot(p, j, hs[0]);
    }
  }

  /** Every mention holding an unambiguous key joins the first one. */
  method UnionPlainKeys(lex: Lexicon, t: Table, ambiguous: set<Key>, index: map<Key, seq<nat>>, parent: array<nat>)
    requires AllKeys(t) == index.Keys && forall k :: k in index ==> index[k] == Holders(t, k)
    requires parent.Length == |t| && Sound(parent[..], EvidenceLink(lex, t, ambiguous))
    modifies parent
    ensures Sound(parent[..], EvidenceLink(lex, t, ambiguous)) && Coarser(old(parent[..]), parent[..])
    ensures forall k :: k in AllKeys(t) - ambiguous ==> Settled(parent[..], lex, t, ambiguous, k)
  {
    var todo := index.Keys - ambiguous;
    while todo != {}
      invariant todo <= index.Keys - ambiguous
      invariant Sound(parent[..], EvidenceLink(lex, t, ambiguous)) && Coarser(old(parent[..]), parent[..])
      invariant forall k :: k in index.Keys - ambiguous - todo ==> Settled(parent[..], lex, t, ambiguous, k)
    {
      var key :| key in todo;
      ghost var p := parent[..];
      HeldKeyHasHolders(t, key);
      HoldersShareKey(lex, t, ambiguous, key);
      UnionAll(parent, index[key], EvidenceLink(lex, t, ambiguous));
      MergedHoldersSettle(parent[..], lex, t, ambiguous, key);
      CoarserTransitive(old(parent[..]), p, parent[..]);
      forall k | k in index.Keys - ambiguous - todo ensures Settled(parent[..], lex, t, ambiguous, k) {
        CoarserKeepsSettled(p, parent[..], lex, t, ambiguous, k);
      }
      todo := todo - {key};
    }
  }

  lemma AllKeysSettled(p: seq<nat>, lex: Lexicon, t: Table, ambiguous: set<Key>)
    requires Forest(p) && |p| == |t|
    requires forall k :: k in AllKeys(t) ==> Settled(p, lex, t, ambiguous, k)
    ensures Complete(p, EvidenceLink(lex, t, ambiguous))
  {
    var link := EvidenceLink(lex, t, ambiguous);
    forall i: nat, j: nat | link(i, j) ensures i < |p| && j < |p| && Root(p, i) == Root(p, j) {
      var key :| LinksVia(lex, t, ambiguous, key, i, j);
      assert key in AllKeys(t);
      assert SameRoot(p, i, j);
    }
  }

  // ----- the component list -----

  /** Members of the class named `r`, ascending. */
  ghost function MembersUpTo(link: Link, r: nat, n: nat): (ms: seq<nat>)
    ensures forall m :: m in ms ==> m < n
  {
    if n == 0 then [] else MembersUpTo(link, r, n - 1) + if Least(link, n - 1) == r then [n - 1] else []
  }

  /** Names of the classes that meet `0..n`, ascending. */
  ghost function NamesUpTo(link: Link, n: nat): seq<nat> {
    if n == 0 then [] else NamesUpTo(link, n - 1) + if Least(link, n - 1) == n - 1 then [n - 1] else []
  }

  ghost function Classes(link: Link, n: nat): (cs: seq<seq<nat>>)
    ensures forall x, m :: 0 <= x < |cs| && m in cs[x] ==> m < n
  {
    seq(|NamesUpTo(link, n)|, x requires 0 <= x < |NamesUpTo(link, n)| => MembersUpTo(link, NamesUpTo(link, n)[x], n))
  }

  lemma {:induction false} NamesMembers(link: Link, n: nat, r: nat)
    ensures r in NamesUpTo(link, n) <==> r < n && Least(link, r) == r
  {
    if n != 0 { NamesMembers(link, n - 1, r); }
  }

  lemma {:induction false} MembersMembers(link: Link, r: nat, n: nat, i: nat)
    ensures i in MembersUpTo(link, r, n) <==> i < n && Least(link, i) == r
  {
    if n != 0 { MembersMembers(link, r, n - 1, i); }
  }

  lemma LeastOfLeast(link: Link, i: nat)
    ensures Least(link, Least(link, i)) == Least(link, i)
  {
    LeastNamesClasses(link, i, Least(link, i));
  }

  /** Two mentions land in one component iff a chain of policy steps joins them. */
  lemma ClassesAreChains(link: Link, n: nat, i: nat, j: nat)
    requires i < n && j < n
    ensures (exists x :: 0 <= x < |Classes(link, n)| && i in Classes(link, n)[x] && j in Classes(link, n)[x])
            <==> Linked(link, i, j)
  {
    var cs, names := Classes(link, n), NamesUpTo(link, n);
    LeastNamesClasses(link, i, j);
    if x :| 0 <= x < |cs| && i in cs[x] && j in cs[x] {
      MembersMembers(link, names[x], n, i);
      MembersMembers(link, names[x], n, j);
    }
    if Linked(link, i, j) {
      var r := Least(link, i);
      LeastOfLeast(link, i);
      NamesMembers(link, n, r);
      var x :| 0 <= x < |names| && names[x] == r;
      MembersMembers(link, r, n, i);
      MembersMembers(link, r, n, j);
      assert i in cs[x] && j in cs[x];
    }
  }

  ghost predicate IsMemberList(byRoot: map<nat, seq<nat>>, link: Link, r: nat, n: nat) {
    MembersUpTo(link, r, n) == if r in byRoot then byRoot[r] else []
  }

  /** `components_by_root`: classes in order of first appearance. */
  method ListComponents(parent: array<nat>, ghost link: Link) returns (components: seq<seq<nat>>)
    requires Sound(parent[..], link) && Complete(parent[..], link)
    modifies parent
    ensures components == Classes(link, parent.Length)
  {
    hide Root, Least, Linked;
    var byRoot: map<nat, seq<nat>> := map[];
    var order: seq<nat> := [];
    ghost var p0 := parent[..];
    for i := 0 to parent.Length
      invariant SameRoots(p0, parent[..])
      invariant order == NamesUpTo(link, i)
      invariant forall r :: r in byRoot <==> r in order
      invariant forall r :: IsMemberList(byRoot, link, r, i)
    {
      var root := Find(parent, i);
      RootIsLeast(p0, link, i);
      LeastOfLeast(link, i);
      NamesMembers(link, i, root);
      ghost var was := byRoot;
      if root !in byRoot { order := order + [root]; }
      byRoot := byRoot[root := (if root in byRoot then byRoot[root] else []) + [i]];
      assert IsMemberList(was, link, root, i);
      ghost var next := i + 1;
      forall r ensures IsMemberList(byRoot, link, r, next) { assert IsMemberList(was, link, r, i); }
    }
    forall x | 0 <= x < |order|
      ensures order[x] in byRoot && byRoot[order[x]] == MembersUpTo(link, order[x], parent.Length)
    {
      assert IsMemberList(byRoot, link, order[x], parent.Length);
    }
    components := seq(|order|, x requires 0 <= x < |order| && order[x] in byRoot => byRoot[order[x]]);
  }

  function Pick(ordered: seq<Mention>, indices: seq<nat>): seq<Mention>
    requires forall m :: m in indices ==> m < |ordered|
  {
    seq(|indices|, y requires 0 <= y < |indices| => assert indices[y] in indices; ordered[indices[y]])
  }

  /** The component list of an ordered corpus under a given set of ambiguous keys. */
  ghost function ComponentsWith(lex: Lexicon, ordered: seq<Mention>, ambiguous: set<Key>): seq<seq<Mention>> {
    var cs := Classes(EvidenceLink(lex, TableOf(lex, ordered), ambiguous), |ordered|);
    seq(|cs|, x requires 0 <= x < |cs| => Pick(ordered, cs[x]))
  }

  ghost function ComponentsOf(lex: Lexicon, ordered: seq<Mention>): seq<seq<Mention>> {
    ComponentsWith(lex, ordered, AmbiguousKeys(lex, TableOf(lex, ordered)))
  }

  /** `sorted(entity_facts, key=_mention_sort_key)`, the key being a content hash. */
  function Ordered(sortKey: Mention -> nat, facts: seq<Mention>): seq<Mention> {
    Order.SortBy(facts, (a, b) => sortKey(a) <= sortKey(b))
  }

  lemma IdentityIsSound(p: seq<nat>, link: Link)
    requires forall i :: 0 <= i < |p| ==> p[i] == i
    ensures Sound(p, link)
  {
    forall i | 0 <= i < |p| ensures Linked(link, i, Root(p, i)) { LinkedSelf(link, i); }
  }

  /** `compute_components`. */
  method ComputeComponents(lex: Lexicon, sortKey: Mention -> nat, facts: seq<Mention>)
    returns (components: seq<seq<Mention>>)
    ensures components == ComponentsOf(lex, Ordered(sortKey, facts))
  {
    var ordered := Ordered(sortKey, facts);
    var n := |ordered|;
    var parent := new nat[n](i => i);
    var table := CollectKeys(lex, ordered);
    var index := IndexKeys(table);
    var ambiguous := DetectAmbiguousKeys(lex, table, index);
    ghost var link := EvidenceLink(lex, table, ambiguous);
    IdentityIsSound(parent[..], link);
    UnionPlainKeys(lex, table, ambiguous, index, parent);
    ghost var p := parent[..];
    ResolveAmbiguousKeys(lex, table, ambiguous, index, parent);
    forall k | k in AllKeys(table) ensures Settled(parent[..], lex, table, ambiguous, k) {
      if k !in ambiguous { CoarserKeepsSettled(p, parent[..], lex, table, ambiguous, k); }
    }
    AllKeysSettled(parent[..], lex, table, ambiguous);
    var classes := ListComponents(parent, link);
    components := seq(|classes|, x requires 0 <= x < |classes| => Pick(ordered, classes[x]));
  }

  // ----- what the result does not depend on -----

  /** The component list is one function of the multiset of mentions: permuting
      the input changes nothing when no two mentions share a content hash. */
  lemma InputOrderIrrelevant(lex: Lexicon, sortKey: Mention -> nat, a: seq<Mention>, b: seq<Mention>)
    requires multiset(a) == multiset(b)
    requires forall x, y :: x in a && y in a && sortKey(x) == sortKey(y) ==> x == y
    ensures ComponentsOf(lex, Ordered(sortKey, a)) == ComponentsOf(lex, Ordered(sortKey, b))
  {
    var le := (x, y) => sortKey(x) <= sortKey(y);
    Order.SortByCorrect(a, le);
    Order.SortByCorrect(b, le);
    Order.SortedIsUnique(Order.SortBy(a, le), Order.SortBy(b, le), le);
  }

  lemma LinksAgree(link: Link, other: Link, path: seq<nat>)
    requires forall i: nat, j: nat :: link(i, j) == other(i, j)
    requires Chain(link, path)
    ensures Chain(other, path)
  {
    forall k | 0 <= k < |path| - 1 ensures other(path[k], path[k + 1]) || other(path[k + 1], path[k]) {
      assert link(path[k], path[k + 1]) || link(path[k + 1], path[k]);
      assert link(path[k], path[k + 1]) == other(path[k], path[k + 1]);
      assert link(path[k + 1], path[k]) == other(path[k + 1], path[k]);
    }
  }

  lemma SameLinksSameNames(link: Link, other: Link, i: nat)
    requires forall i: nat, j: nat :: link(i, j) == other(i, j)
    ensures Least(link, i) == Least(other, i)
  {
    LeastFromIsLeast(link, i, 0);
    LeastFromIsLeast(other, i, 0);
    var a, b := Least(link, i), Least(other, i);
    var p: seq<nat> :| Connects(link, p, i, a);
    LinksAgree(link, other, p);
    assert Connects(other, p, i, a);
    var q: seq<nat> :| Connects(other, q, i, b);
    LinksAgree(other, link, q);
    assert Connects(link, q, i, b);
    assert Linked(other, i, a) && Linked(link, i, b);
  }

  lemma {:induction false} SameNamesSameLists(link: Link, other: Link, n: nat, r: nat)
    requires forall i: nat :: Least(link, i) == Least(other, i)
    ensures NamesUpTo(link, n) == NamesUpTo(other, n)
    ensures MembersUpTo(link, r, n) == MembersUpTo(other, r, n)
  {
    if n != 0 { SameNamesSameLists(link, other, n - 1, r); }
  }

  lemma SameLinksSameClasses(link: Link, other: Link, n: nat)
    requires forall i: nat, j: nat :: link(i, j) == other(i, j)
    ensures Classes(link, n) == Classes(other, n)
  {
    forall i: nat ensures Least(link, i) == Least(other, i) { SameLinksSameNames(link, other, i); }
    forall r: nat
      ensures NamesUpTo(link, n) == NamesUpTo(other, n) && MembersUpTo(link, r, n) == MembersUpTo(other, r, n)
    {
      SameNamesSameLists(link, other, n, r);
    }
    SameNamesSameLists(link, other, n, 0);
    var cs, ds := Classes(link, n), Classes(other, n);
    assert forall x :: 0 <= x < |cs| ==> cs[x] == ds[x];
  }

  /** A key whose holders show at most one distinct tag has a single side. */
  lemma OneTagOneSide(lex: Lexicon, t: Table, key: Key, i: nat, j: nat)
    requires |TagSet(TagsOf(lex, t, key))| <= 1 && i < |t| && j < |t| && key in t[i] && key in t[j]
    ensures Side(lex, t, key, i) == Side(lex, t, key, j)
  {
    SideIsAnchor(lex, t, key, i);
    SideIsAnchor(lex, t, key, j);
  }

  lemma SideIsAnchor(lex: Lexicon, t: Table, key: Key, i: nat)
    requires |TagSet(TagsOf(lex, t, key))| <= 1 && i < |t| && key in t[i]
    ensures Side(lex, t, key, i) == Anchor(TagsOf(lex, t, key))
  {
    var shown := TagsOf(lex, t, key);
    if TagAt(lex, t, key, i).Some? {
      var s := TagAt(lex, t, key, i).value;
      assert HoldsTag(lex, t, key, Some(s), i);
      TagIsShown(lex, t, key, s, i);
      AnchorIsMostFrequent(shown, s);
      var a := Anchor(shown).value;
      assert {s, a} <= TagSet(shown);
      assert s != a ==> |{s, a}| == 2;
      SubsetSize({s, a}, TagSet(shown));
    }
  }

  lemma {:induction false} SubsetSize<T>(a: set<T>, b: set<T>)
    requires a <= b
    ensures |a| <= |b|
  {
    assert b == a + (b - a);
  }

  /** The surname-propagation theorem: declaring ambiguous any further keys that
      show at most one distinct tag leaves the component list exactly as it was. */
  lemma PropagationChangesNothing(lex: Lexicon, ordered: seq<Mention>, extra: set<Key>)
    requires forall k :: k in extra ==> |TagSet(TagsOf(lex, TableOf(lex, ordered), k))| <= 1
    ensures ComponentsWith(lex, ordered, AmbiguousKeys(lex, TableOf(lex, ordered)) + extra)
      == ComponentsOf(lex, ordered)
  {
    var t := TableOf(lex, ordered);
    var few := AmbiguousKeys(lex, t);
    var link, other := EvidenceLink(lex, t, few + extra), EvidenceLink(lex, t, few);
    forall i: nat, j: nat ensures link(i, j) == other(i, j) {
      forall key ensures LinksVia(lex, t, few + extra, key, i, j) == LinksVia(lex, t, few, key, i, j) {
        if key in extra && i < |t| && j < |t| && key in t[i] && key in t[j] { OneTagOneSide(lex, t, key, i, j); }
      }
    }
    SameLinksSameClasses(link, other, |ordered|);
  }

  /** Clause B only ever splits: whatever is linked with more ambiguous keys is linked with fewer. */
  lemma AmbiguityOnlySplits(lex: Lexicon, t: Table, fewer: set<Key>, more: set<Key>, i: nat, j: nat)
    requires fewer <= more && Linked(EvidenceLink(lex, t, more), i, j)
    ensures Linked(EvidenceLink(lex, t, fewer), i, j)
  {
    var link, other := EvidenceLink(lex, t, more), EvidenceLink(lex, t, fewer);
    var path: seq<nat> :| Connects(link, path, i, j);
    forall k | 0 <= k < |path| - 1 ensures other(path[k], path[k + 1]) || other(path[k + 1], path[k]) {
      if link(path[k], path[k + 1]) {
        var key :| LinksVia(lex, t, more, key, path[k], path[k + 1]);
        assert LinksVia(lex, t, fewer, key, path[k], path[k + 1]);
      } else {
        var key :| LinksVia(lex, t, more, key, path[k + 1], path[k]);
        assert LinksVia(lex, t, fewer, key, path[k + 1], path[k]);
      }
    }
    assert Connects(other, path, i, j);
  }
}
