/** Mentions without a merge key, such as two that are only called by a generic
    word: each is a component of its own, and namesakes get one id all the same. */
module Namesakes {
  import opened Schemas
  import opened UnionFind
  import opened Merge
  import opened Components
  import opened Partition
  import opened EntityResolution
  import opened EntityGraphs
  import opened Construction
  import opened Keys
  import opened Identities

  /** Every surface of the mention is made of generic words. */
  predicate IsNameless(lex: Lexicon, m: Mention) {
    forall s :: s in [m.name] + m.aliases ==> IsGeneric(lex, NormName(lex, s))
  }

  ghost function PolicyOf(lex: Lexicon, ordered: seq<Mention>): Link {
    EvidenceLink(lex, TableOf(lex, ordered), AmbiguousKeys(lex, TableOf(lex, ordered)))
  }

  lemma NamelessHasNoLink(lex: Lexicon, ordered: seq<Mention>, i: nat, j: nat)
    requires i < |ordered| && IsNameless(lex, ordered[i])
    ensures !PolicyOf(lex, ordered)(i, j) && !PolicyOf(lex, ordered)(j, i)
  {
    var t := TableOf(lex, ordered);
    assert t[i] == RowOf(lex, PrimaryKeys(lex, ordered), ordered[i]);
    assert t[i] == map[];
  }

  /** No chain leaves a nameless mention. */
  lemma NamelessIsUnlinked(lex: Lexicon, ordered: seq<Mention>, i: nat, j: nat)
    requires i < |ordered| && IsNameless(lex, ordered[i]) && Linked(PolicyOf(lex, ordered), i, j)
    ensures i == j
  {
    hide PolicyOf, IsNameless;
    var path :| Connects(PolicyOf(lex, ordered), path, i, j);
    if |path| > 1 { NamelessHasNoLink(lex, ordered, i, path[1]); }
  }

  /** Its component holds no other mention. */
  lemma NamelessIsAlone(lex: Lexicon, ordered: seq<Mention>, i: nat) returns (x: nat)
    requires i < |ordered| && IsNameless(lex, ordered[i])
    ensures x < |ClassList(lex, ordered)| && ClassList(lex, ordered)[x] != []
    ensures forall m :: m in ClassList(lex, ordered)[x] <==> m == i
  {
    hide IsNameless, Classes;
    var link, cs := PolicyOf(lex, ordered), ClassList(lex, ordered);
    LinkedSelf(link, i);
    ClassesAreChains(link, |ordered|, i, i);
    x :| 0 <= x < |cs| && i in cs[x];
    forall m | m in cs[x] ensures m == i {
      ClassesAreChains(link, |ordered|, i, m);
      NamelessIsUnlinked(lex, ordered, i, m);
    }
  }

  /** The entity of a component that holds one mention has its name and type. */
  lemma MergedAlone(hash: EntityHash, members: seq<Mention>, m: Mention, e: Entity)
    requires IsMerged(hash, members, e) && members != [] && forall other :: other in members ==> other == m
    ensures e.name == m.name && e.kind == m.kind && e.id == hash(m.name, m.kind)
  {
    hide Outranks;
    assert members[0] in members && MostCommon(members, m.kind);
    assert forall k :: MostCommon(members, k) ==> k == m.kind;
  }

  /** Two nameless mentions with one name and one type become two entities with one id. */
  lemma NamesakesShareId(lex: Lexicon, ordered: seq<Mention>, hash: EntityHash, merged: seq<Entity>,
                         entities: seq<Entity>, ids: map<Ref, string>, i: nat, j: nat) returns (x: nat, y: nat)
    requires ResolvedAs(hash, ComponentsOf(lex, ordered), merged, entities, ids)
    requires i < |ordered| && j < |ordered| && i != j
    requires IsNameless(lex, ordered[i]) && IsNameless(lex, ordered[j])
    requires ordered[i].name == ordered[j].name && ordered[i].kind == ordered[j].kind
    ensures x < |merged| && y < |merged| && x != y && merged[x].id == merged[y].id
  {
    hide IsNameless, IsMerged, Classes, ClassList;
    x := NamelessIsAlone(lex, ordered, i);
    y := NamelessIsAlone(lex, ordered, j);
    assert j in ClassList(lex, ordered)[y];
    MergedOfAlone(lex, ordered, hash, merged, entities, ids, i, x);
    MergedOfAlone(lex, ordered, hash, merged, entities, ids, j, y);
  }

  lemma MergedOfAlone(lex: Lexicon, ordered: seq<Mention>, hash: EntityHash, merged: seq<Entity>,
                      entities: seq<Entity>, ids: map<Ref, string>, i: nat, x: nat)
    requires ResolvedAs(hash, ComponentsOf(lex, ordered), merged, entities, ids)
    requires i < |ordered| && x < |ClassList(lex, ordered)| && ClassList(lex, ordered)[x] != []
    requires forall m :: m in ClassList(lex, ordered)[x] <==> m == i
    ensures x < |merged| && merged[x].id == hash(ordered[i].name, ordered[i].kind)
  {
    hide IsMerged, Classes, EvidenceLink, TableOf, AmbiguousKeys;
    var indices, members := ClassList(lex, ordered)[x], ComponentsOf(lex, ordered)[x];
    assert members == Pick(ordered, indices) && |members| == |indices|;
    forall m | m in members ensures m == ordered[i] {
      var k :| 0 <= k < |members| && members[k] == m;
      assert indices[k] in indices;
    }
    MergedAlone(hash, members, ordered[i], merged[x]);
  }

  /** With the code's hash, merged entities share an id exactly when they share name and type. */
  lemma SharedIdIff(digest: string -> string, components: seq<seq<Mention>>, merged: seq<Entity>, x: nat, y: nat)
    requires Injective(digest) && x < |merged| && y < |merged| && |merged| == |components|
    requires AllMerged((name, kind) => EntityId(digest, name, kind), components, merged)
    requires NoColon(merged[x].kind) && NoColon(merged[y].kind)
    ensures merged[x].id == merged[y].id <==> merged[x].name == merged[y].name && merged[x].kind == merged[y].kind
  {
    hide IsCanonicalName, IsMajorityType;
    EntityIdsDiffer(digest, merged[x].name, merged[x].kind, merged[y].name, merged[y].kind);
  }
}
