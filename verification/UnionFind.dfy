/** The array-based union-find of entity merging: path halving on look-up, and
    the smaller index always wins a union. A parent list is a forest because
    no entry ever points upwards; its meaning is the root of every index. */
module UnionFind {
  import opened Schemas

  predicate Forest(p: seq<nat>) {
    forall i :: 0 <= i < |p| ==> p[i] <= i
  }

  function Root(p: seq<nat>, i: nat): (r: nat)
    requires Forest(p) && i < |p|
    ensures r <= i && p[r] == r
    decreases i
  {
    if p[i] == i then i else Root(p, p[i])
  }

  ghost predicate SameRoots(p: seq<nat>, q: seq<nat>) {
    && Forest(p) && Forest(q) && |p| == |q|
    && forall j {:trigger Root(q, j)} :: 0 <= j < |p| ==> Root(q, j) == Root(p, j)
  }

  /** Pointing an index at a lower member of its own class changes no class. */
  lemma {:induction false} RedirectKeepsRoots(p: seq<nat>, i: nat, v: nat)
    requires Forest(p) && v < i < |p| && Root(p, v) == Root(p, i)
    ensures SameRoots(p, p[i := v])
  {
    var q := p[i := v];
    assert Forest(q);
    forall j | 0 <= j < |p| ensures Root(q, j) == Root(p, j) { RedirectedRoot(p, i, v, j); }
  }

  lemma {:induction false} RedirectedRoot(p: seq<nat>, i: nat, v: nat, j: nat)
    requires Forest(p) && v < i < |p| && j < |p| && Root(p, v) == Root(p, i)
    requires Forest(p[i := v])
    ensures Root(p[i := v], j) == Root(p, j)
    decreases j
  {
    if j == i {
      RedirectedRoot(p, i, v, v);
    } else if p[j] != j {
      RedirectedRoot(p, i, v, p[j]);
    }
  }

  /** Look-up with path halving: the root it returns, and no class changes. */
  method Find(parent: array<nat>, index: nat) returns (root: nat)
    requires Forest(parent[..]) && index < parent.Length
    modifies parent
    ensures root == Root(old(parent[..]), index)
    ensures SameRoots(old(parent[..]), parent[..])
  {
    root := index;
    while parent[root] != root
      invariant root < parent.Length
      invariant SameRoots(old(parent[..]), parent[..])
      invariant Root(parent[..], root) == Root(old(parent[..]), index)
      decreases root
    {
      ghost var p := parent[..];
      assert p[root] < root && p[p[root]] <= p[root];
      RedirectKeepsRoots(p, root, p[p[root]]);
      parent[root] := parent[parent[root]];
      assert parent[..] == p[root := p[p[root]]];
      assert Root(parent[..], parent[root]) == Root(p, root);
      root := parent[root];
    }
  }

  /** `q` is `p` with the classes of `a` and `b` made one; the smaller root stays. */
  ghost predicate Joined(p: seq<nat>, q: seq<nat>, a: nat, b: nat)
    requires Forest(p) && a < |p| && b < |p|
  {
    && Forest(q) && |q| == |p|
    && var ra := Root(p, a);
       var rb := Root(p, b);
       forall j {:trigger Root(q, j)} :: 0 <= j < |p| ==>
         Root(q, j) == if Root(p, j) == Max(ra, rb) then Min(ra, rb) else Root(p, j)
  }

  lemma {:induction false} HangRoot(p: seq<nat>, lo: nat, hi: nat, j: nat)
    requires Forest(p) && lo < hi < |p| && j < |p| && p[lo] == lo && p[hi] == hi
    requires Forest(p[hi := lo])
    ensures Root(p[hi := lo], j) == if Root(p, j) == hi then lo else Root(p, j)
    decreases j
  {
    if j == hi {
      assert Root(p[hi := lo], lo) == lo;
    } else if p[j] != j {
      HangRoot(p, lo, hi, p[j]);
    }
  }

  method Union(parent: array<nat>, a: nat, b: nat)
    requires Forest(parent[..]) && a < parent.Length && b < parent.Length
    modifies parent
    ensures Joined(old(parent[..]), parent[..], a, b)
  {
    var rootA := Find(parent, a);
    var rootB := Find(parent, b);
    if rootA == rootB {
      return;
    }
    ghost var p := parent[..];
    var lo: nat, hi: nat := Min(rootA, rootB), Max(rootA, rootB);
    assert Root(p, rootA) == rootA && Root(p, rootB) == rootB;
    parent[hi] := lo;
    assert parent[..] == p[hi := lo];
    forall j | 0 <= j < |p|
      ensures Root(parent[..], j) == if Root(p, j) == hi then lo else Root(p, j)
    {
      HangRoot(p, lo, hi, j);
    }
  }

  // ----- what a sequence of unions computes: the classes of a relation -----

  type Link = (nat, nat) -> bool

  /** A chain of links, each walked in either direction. */
  ghost predicate Chain(link: Link, path: seq<nat>) {
    && |path| > 0
    && forall k :: 0 <= k < |path| - 1 ==> link(path[k], path[k + 1]) || link(path[k + 1], path[k])
  }

  ghost predicate Connects(link: Link, path: seq<nat>, i: nat, j: nat) {
    Chain(link, path) && path[0] == i && path[|path| - 1] == j
  }

  ghost predicate Linked(link: Link, i: nat, j: nat) {
    exists path: seq<nat> :: Connects(link, path, i, j)
  }

  lemma LinkedSelf(link: Link, i: nat)
    ensures Linked(link, i, i)
  {
    assert Connects(link, [i], i, i);
  }

  lemma LinkedStep(link: Link, i: nat, j: nat)
    requires link(i, j)
    ensures Linked(link, i, j)
  {
    assert Connects(link, [i, j], i, j);
  }

  lemma LinkedSymmetric(link: Link, i: nat, j: nat)
    requires Linked(link, i, j)
    ensures Linked(link, j, i)
  {
    var path: seq<nat> :| Connects(link, path, i, j);
    var n := |path|;
    var back := seq(n, k requires 0 <= k < n => path[n - 1 - k]);
    forall k | 0 <= k < n - 1 ensures link(back[k], back[k + 1]) || link(back[k + 1], back[k]) {
      var m := n - 2 - k;
      assert link(path[m], path[m + 1]) || link(path[m + 1], path[m]);
    }
    assert Connects(link, back, j, i);
  }

  lemma LinkedTransitive(link: Link, i: nat, j: nat, k: nat)
    requires Linked(link, i, j) && Linked(link, j, k)
    ensures Linked(link, i, k)
  {
    var p: seq<nat> :| Connects(link, p, i, j);
    var q: seq<nat> :| Connects(link, q, j, k);
    var pq := p + q[1..];
    forall m | 0 <= m < |pq| - 1 ensures link(pq[m], pq[m + 1]) || link(pq[m + 1], pq[m]) {
      if m < |p| - 1 {
        assert pq[m] == p[m] && pq[m + 1] == p[m + 1];
      } else {
        assert pq[m] == q[m - |p| + 1] && pq[m + 1] == q[m - |p| + 2];
      }
    }
    assert Connects(link, pq, i, k);
  }

  /** Nothing has been merged that the relation does not chain together. */
  ghost predicate Sound(p: seq<nat>, link: Link) {
    Forest(p) && forall i {:trigger Root(p, i)} :: 0 <= i < |p| ==> Linked(link, i, Root(p, i))
  }

  /** Nothing merged in `p` has come apart in `q`. */
  ghost predicate Coarser(p: seq<nat>, q: seq<nat>) {
    && Forest(p) && Forest(q) && |p| == |q|
    && forall i, j {:trigger Root(q, i), Root(q, j)} ::
         0 <= i < |p| && 0 <= j < |p| && Root(p, i) == Root(p, j) ==> Root(q, i) == Root(q, j)
  }

  lemma JoinedIsCoarser(p: seq<nat>, q: seq<nat>, a: nat, b: nat)
    requires Forest(p) && a < |p| && b < |p| && Joined(p, q, a, b)
    ensures Coarser(p, q) && Root(q, a) == Root(q, b)
  {
  }

  lemma JoinedKeepsSound(p: seq<nat>, q: seq<nat>, a: nat, b: nat, link: Link)
    requires Forest(p) && a < |p| && b < |p| && Joined(p, q, a, b)
    requires Sound(p, link) && Linked(link, a, b)
    ensures Sound(q, link)
  {
    var ra, rb := Root(p, a), Root(p, b);
    LinkedSymmetric(link, a, ra);
    LinkedTransitive(link, ra, a, b);
    LinkedTransitive(link, ra, b, rb);
    LinkedSymmetric(link, ra, rb);
    forall i | 0 <= i < |q| ensures Linked(link, i, Root(q, i)) {
      assert Linked(link, i, Root(p, i));
      if Root(p, i) == Max(ra, rb) { LinkedTransitive(link, i, Root(p, i), Min(ra, rb)); }
    }
  }

  /** `_union(parent, members[0], m)` for every later member `m`. */
  method UnionAll(parent: array<nat>, members: seq<nat>, ghost link: Link)
    requires Sound(parent[..], link)
    requires forall m :: m in members ==> m < parent.Length
    requires forall m :: m in members ==> Linked(link, members[0], m)
    modifies parent
    ensures Sound(parent[..], link)
    ensures Coarser(old(parent[..]), parent[..])
    ensures OneClass(parent[..], members)
  {
    hide Root, Linked;
    if |members| == 0 { return; }
    assert members[0] in members;
    for k := 1 to |members|
      invariant Sound(parent[..], link)
      invariant Coarser(old(parent[..]), parent[..])
      invariant OneClass(parent[..], members[..k])
    {
      assert members[k] in members;
      ghost var p := parent[..];
      Union(parent, members[0], members[k]);
      JoinedIsCoarser(p, parent[..], members[0], members[k]);
      JoinedKeepsSound(p, parent[..], members[0], members[k], link);
      assert forall x :: 0 <= x < k ==> members[..k][x] == members[x];
      assert forall x :: 0 <= x < k ==> Root(p, members[x]) == Root(p, members[0]);
    }
    assert members[..|members|] == members;
  }

  /** All of `members` share one root. */
  ghost predicate OneClass(p: seq<nat>, members: seq<nat>) {
    && Forest(p)
    && forall x {:trigger members[x]} :: 0 <= x < |members| ==>
         members[x] < |p| && members[0] < |p| && Root(p, members[x]) == Root(p, members[0])
  }

  /** Every link has been acted on. */
  ghost predicate Complete(p: seq<nat>, link: Link) {
    && Forest(p)
    && forall i: nat, j: nat {:trigger link(i, j)} :: link(i, j) ==> i < |p| && j < |p| && Root(p, i) == Root(p, j)
  }

  lemma {:induction false} ChainSharesRoot(p: seq<nat>, link: Link, path: seq<nat>)
    requires Complete(p, link) && Chain(link, path) && path[0] < |p|
    ensures path[|path| - 1] < |p| && Root(p, path[|path| - 1]) == Root(p, path[0])
    decreases |path|
  {
    if |path| > 1 {
      var rest := path[1..];
      assert link(path[0], path[1]) || link(path[1], path[0]);
      forall k | 0 <= k < |rest| - 1 ensures link(rest[k], rest[k + 1]) || link(rest[k + 1], rest[k]) {
        assert rest[k] == path[k + 1] && rest[k + 1] == path[k + 2];
      }
      ChainSharesRoot(p, link, rest);
    }
  }

  /** The least index chained to `i`, searched upwards from `j`. */
  ghost function LeastFrom(link: Link, i: nat, j: nat): (r: nat)
    requires j <= i
    ensures j <= r <= i
    decreases i - j
  {
    if j == i || Linked(link, i, j) then j else LeastFrom(link, i, j + 1)
  }

  ghost function Least(link: Link, i: nat): (r: nat)
    ensures r <= i
  {
    LeastFrom(link, i, 0)
  }

  lemma {:induction false} LeastFromIsLeast(link: Link, i: nat, j: nat)
    requires j <= i
    ensures Linked(link, i, LeastFrom(link, i, j))
    ensures forall m: nat :: j <= m && Linked(link, i, m) ==> LeastFrom(link, i, j) <= m
    decreases i - j
  {
    LinkedSelf(link, i);
    if j != i && !Linked(link, i, j) { LeastFromIsLeast(link, i, j + 1); }
  }

  /** `Least` is the canonical name of a class of the closure of `link`. */
  lemma LeastNamesClasses(link: Link, i: nat, j: nat)
    ensures Least(link, i) == Least(link, j) <==> Linked(link, i, j)
    ensures Linked(link, i, Least(link, i))
  {
    LeastFromIsLeast(link, i, 0);
    LeastFromIsLeast(link, j, 0);
    var li, lj := Least(link, i), Least(link, j);
    if li == lj {
      LinkedSymmetric(link, j, lj);
      LinkedTransitive(link, i, li, j);
    }
    if Linked(link, i, j) {
      LinkedTransitive(link, i, j, lj);
      LinkedSymmetric(link, i, j);
      LinkedTransitive(link, j, i, li);
    }
  }

  /** Main fact about the structure: once every link is acted on and nothing
      else was, the root of `i` is the least index chained to `i`, whatever
      order the unions came in. */
  lemma RootIsLeast(p: seq<nat>, link: Link, i: nat)
    requires Sound(p, link) && Complete(p, link) && i < |p|
    ensures Root(p, i) == Least(link, i)
  {
    LeastFromIsLeast(link, i, 0);
    var m := Least(link, i);
    assert Linked(link, i, Root(p, i));
    var path: seq<nat> :| Connects(link, path, i, m);
    ChainSharesRoot(p, link, path);
    assert Root(p, m) <= m;
  }
}
