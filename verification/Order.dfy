/** Orderings shared by every stage that promises a deterministic order:
    Python's `<=` on strings, its stable `sorted`, and the fact that makes
    "sorted by this key" a single list. */
module Order {

  /** Python's `<=` on `str`: lexicographic by code point. */
  predicate StrLe(a: string, b: string) {
    a == [] || (b != [] && (a[0] < b[0] || (a[0] == b[0] && StrLe(a[1..], b[1..]))))
  }

  lemma {:induction false} StrLeTotal(a: string, b: string)
    ensures StrLe(a, b) || StrLe(b, a)
  {
    if a == [] || b == [] {
    } else {
      StrLeTotal(a[1..], b[1..]);
    }
  }

  lemma {:induction false} StrLeAntisymmetric(a: string, b: string)
    requires StrLe(a, b) && StrLe(b, a)
    ensures a == b
  {
    if a == [] || b == [] {
    } else {
      StrLeAntisymmetric(a[1..], b[1..]);
      assert a == [a[0]] + a[1..] && b == [b[0]] + b[1..];
    }
  }

  lemma {:induction false} StrLeTransitive(a: string, b: string, c: string)
    requires StrLe(a, b) && StrLe(b, c)
    ensures StrLe(a, c)
  {
    if a == [] {
    } else if a[0] == b[0] == c[0] {
      StrLeTransitive(a[1..], b[1..], c[1..]);
    }
  }

  /** `a` comes before `b` in the alphabet: it is a proper beginning of `b`, or at
      the first place where they differ it has the smaller character. */
  predicate Earlier(a: string, b: string) {
    exists k :: 0 <= k <= |a| && EarlierAt(a, b, k)
  }

  predicate EarlierAt(a: string, b: string, k: nat)
    requires k <= |a|
  {
    k < |b| && a[..k] == b[..k] && (k == |a| || a[k] < b[k])
  }

  lemma EarlierFromTails(a: string, b: string)
    requires a != [] && b != [] && a[0] == b[0] && Earlier(a[1..], b[1..])
    ensures Earlier(a, b)
  {
    var k :| 0 <= k <= |a[1..]| && EarlierAt(a[1..], b[1..], k);
    assert a[..k + 1] == [a[0]] + a[1..][..k] && b[..k + 1] == [b[0]] + b[1..][..k];
    assert EarlierAt(a, b, k + 1);
  }

  lemma EarlierToTails(a: string, b: string)
    requires a != [] && b != [] && a[0] == b[0] && Earlier(a, b)
    ensures Earlier(a[1..], b[1..])
  {
    var k :| 0 <= k <= |a| && EarlierAt(a, b, k);
    assert k > 0;
    assert a[1..][..k - 1] == a[..k][1..] && b[1..][..k - 1] == b[..k][1..];
    assert EarlierAt(a[1..], b[1..], k - 1);
  }

  lemma EarlierByHead(a: string, b: string)
    requires a == [] || b == [] || a[0] != b[0]
    ensures Earlier(a, b) <==> b != [] && (a == [] || a[0] < b[0])
  {
    if b != [] && (a == [] || a[0] < b[0]) { assert EarlierAt(a, b, 0); }
    forall k | 0 < k <= |a| ensures !EarlierAt(a, b, k) { EarlierSharesHead(a, b, k); }
  }

  lemma EarlierSharesHead(a: string, b: string, k: nat)
    requires 0 < k <= |a|
    ensures EarlierAt(a, b, k) ==> b != [] && a[0] == b[0]
  {
    if EarlierAt(a, b, k) { assert a[0] == a[..k][0] == b[..k][0] == b[0]; }
  }

  lemma {:induction false} StrLeIsEarlier(a: string, b: string)
    ensures StrLe(a, b) <==> a == b || Earlier(a, b)
  {
    hide Earlier;
    if a != [] && b != [] && a[0] == b[0] {
      StrLeIsEarlier(a[1..], b[1..]);
      if Earlier(a, b) { EarlierToTails(a, b); }
      if Earlier(a[1..], b[1..]) { EarlierFromTails(a, b); }
      assert a == [a[0]] + a[1..] && b == [b[0]] + b[1..];
    } else {
      EarlierByHead(a, b);
    }
  }

  ghost predicate TotalPreorder<T(!new)>(le: (T, T) -> bool) {
    && (forall x, y :: le(x, y) || le(y, x))
    && (forall x, y, z :: le(x, y) && le(y, z) ==> le(x, z))
  }

  /** The order separates the elements of `xs`: no two different ones tie. */
  ghost predicate AntisymmetricOn<T(!new)>(le: (T, T) -> bool, xs: seq<T>) {
    forall x, y :: x in xs && y in xs && le(x, y) && le(y, x) ==> x == y
  }

  ghost predicate Sorted<T>(xs: seq<T>, le: (T, T) -> bool) {
    forall i, j :: 0 <= i < j < |xs| ==> le(xs[i], xs[j])
  }

  lemma StrLeIsTotalOrder()
    ensures TotalPreorder(StrLe)
    ensures forall xs: seq<string> :: AntisymmetricOn(StrLe, xs)
  {
    forall x, y ensures StrLe(x, y) || StrLe(y, x) { StrLeTotal(x, y); }
    forall x, y, z | StrLe(x, y) && StrLe(y, z) ensures StrLe(x, z) { StrLeTransitive(x, y, z); }
    forall x, y | StrLe(x, y) && StrLe(y, x) ensures x == y { StrLeAntisymmetric(x, y); }
  }

  function Insert<T>(x: T, xs: seq<T>, le: (T, T) -> bool): seq<T> {
    if xs == [] || le(x, xs[0]) then [x] + xs else [xs[0]] + Insert(x, xs[1..], le)
  }

  /** Python's `sorted(xs, key=...)`: stable, so elements that tie keep their input order. */
  function SortBy<T>(xs: seq<T>, le: (T, T) -> bool): seq<T> {
    if xs == [] then [] else Insert(xs[0], SortBy(xs[1..], le), le)
  }

  lemma {:induction false} InsertKeepsOrder<T(!new)>(x: T, xs: seq<T>, le: (T, T) -> bool)
    requires TotalPreorder(le) && Sorted(xs, le)
    ensures Sorted(Insert(x, xs, le), le)
    ensures multiset(Insert(x, xs, le)) == multiset{x} + multiset(xs)
  {
    if xs == [] {
    } else if le(x, xs[0]) {
      assert multiset([x] + xs) == multiset{x} + multiset(xs);
    } else {
      var rest := Insert(x, xs[1..], le);
      InsertKeepsOrder(x, xs[1..], le);
      assert xs == [xs[0]] + xs[1..];
      assert multiset([xs[0]] + rest) == multiset{xs[0]} + multiset(rest);
      forall k | 0 <= k < |rest| ensures le(xs[0], rest[k]) {
        assert rest[k] in multiset(rest);
        if rest[k] != x {
          assert rest[k] in multiset(xs[1..]);
          var m :| 0 <= m < |xs[1..]| && xs[1..][m] == rest[k];
          assert le(xs[0], xs[m + 1]);
        }
      }
    }
  }

  /** `SortBy` returns a sorted permutation of its input. */
  lemma {:induction false} SortByCorrect<T(!new)>(xs: seq<T>, le: (T, T) -> bool)
    requires TotalPreorder(le)
    ensures Sorted(SortBy(xs, le), le)
    ensures multiset(SortBy(xs, le)) == multiset(xs)
    ensures |SortBy(xs, le)| == |xs|
    ensures forall x :: x in SortBy(xs, le) <==> x in xs
  {
    if xs == [] {
    } else {
      SortByCorrect(xs[1..], le);
      InsertKeepsOrder(xs[0], SortBy(xs[1..], le), le);
      assert xs == [xs[0]] + xs[1..];
    }
    assert multiset(SortBy(xs, le)) == multiset(xs);
    assert |SortBy(xs, le)| == |multiset(SortBy(xs, le))| == |multiset(xs)| == |xs|;
    forall x ensures x in SortBy(xs, le) <==> x in xs {
      assert x in SortBy(xs, le) <==> x in multiset(SortBy(xs, le));
      assert x in xs <==> x in multiset(xs);
    }
  }

  /** `sorted(strings)`: the same strings, ascending. */
  lemma SortedStrings(xs: seq<string>)
    ensures Sorted(SortBy(xs, StrLe), StrLe)
    ensures |SortBy(xs, StrLe)| == |xs|
    ensures forall x :: x in SortBy(xs, StrLe) <==> x in xs
  {
    StrLeIsTotalOrder();
    SortByCorrect(xs, StrLe);
  }

  /** A sorted list starts with an element that is below every element. */
  lemma HeadIsLeast<T(!new)>(a: seq<T>, x: T, le: (T, T) -> bool)
    requires TotalPreorder(le) && Sorted(a, le) && x in a
    ensures le(a[0], x)
  {
    var i :| 0 <= i < |a| && a[i] == x;
    assert i == 0 || le(a[0], a[i]);
  }

  /** Stability, at the head: the first element of the sorted list is the
      earliest of the least ones. */
  lemma {:induction false} HeadIsFirst<T(!new)>(xs: seq<T>, le: (T, T) -> bool) returns (at: nat)
    requires xs != [] && TotalPreorder(le)
    ensures at < |xs| && SortBy(xs, le) != [] && SortBy(xs, le)[0] == xs[at]
    ensures forall k :: 0 <= k < at ==> !le(xs[k], xs[at])
    ensures forall k :: 0 <= k < |xs| ==> le(xs[at], xs[k])
  {
    if |xs| == 1 {
      at := 0;
      assert SortBy(xs[1..], le) == [];
    } else {
      var rest := HeadIsFirst(xs[1..], le);
      if le(xs[0], xs[1..][rest]) {
        at := 0;
      } else {
        at := rest + 1;
      }
      assert forall k :: 0 < k < |xs| ==> xs[k] == xs[1..][k - 1];
    }
  }

  ghost predicate NoDuplicates<T>(xs: seq<T>) {
    forall i, j :: 0 <= i < j < |xs| ==> xs[i] != xs[j]
  }

  /** First appearances, in order: the keys of a dict filled from `xs`. */
  function Distinct<T(==)>(xs: seq<T>): seq<T> {
    if xs == [] then []
    else
      var front, last := Distinct(xs[..|xs| - 1]), xs[|xs| - 1];
      if last in front then front else front + [last]
  }

  lemma {:induction false} DistinctMembers<T>(xs: seq<T>, x: T)
    ensures x in Distinct(xs) <==> x in xs
    ensures NoDuplicates(Distinct(xs))
  {
    if xs != [] {
      DistinctMembers(xs[..|xs| - 1], x);
      DistinctMembers(xs[..|xs| - 1], xs[|xs| - 1]);
      assert xs == xs[..|xs| - 1] + [xs[|xs| - 1]];
    }
  }

  /** `x` is at `i` and nowhere before. */
  predicate FirstAt<T(==)>(xs: seq<T>, x: T, i: nat) { i < |xs| && xs[i] == x && x !in xs[..i] }

  /** They come in the order of those first appearances. */
  lemma {:induction false} DistinctInOrder<T>(xs: seq<T>, x: nat, y: nat) returns (i: nat, j: nat)
    requires x < y < |Distinct(xs)|
    ensures i < j && FirstAt(xs, Distinct(xs)[x], i) && FirstAt(xs, Distinct(xs)[y], j)
  {
    var front, last := xs[..|xs| - 1], xs[|xs| - 1];
    if y < |Distinct(front)| {
      i, j := DistinctInOrder(front, x, y);
      assert xs[..i] == front[..i] && xs[..j] == front[..j];
    } else {
      i := FirstPlace(front, Distinct(front)[x]);
      j := |xs| - 1;
      DistinctMembers(front, last);
      assert xs[..i] == front[..i];
    }
  }

  lemma FirstPlace<T>(xs: seq<T>, x: T) returns (i: nat)
    requires x in Distinct(xs)
    ensures FirstAt(xs, x, i)
    decreases |xs|
  {
    DistinctMembers(xs, x);
    i := |xs| - 1;
    if x in xs[..|xs| - 1] {
      DistinctMembers(xs[..|xs| - 1], x);
      i := FirstPlace(xs[..|xs| - 1], x);
      assert xs[..i] == xs[..|xs| - 1][..i];
    } else {
      assert xs == xs[..|xs| - 1] + [xs[|xs| - 1]];
    }
  }

  /** Lists without duplicates and with the same members are permutations. */
  lemma {:induction false} SameMembersSameBag<T(!new)>(xs: seq<T>, ys: seq<T>)
    requires NoDuplicates(xs) && NoDuplicates(ys) && forall x :: x in xs <==> x in ys
    ensures multiset(xs) == multiset(ys)
  {
    forall x ensures multiset(xs)[x] == multiset(ys)[x] {
      NoDuplicatesCount(xs, x);
      NoDuplicatesCount(ys, x);
      assert x in xs <==> x in multiset(xs);
      assert x in ys <==> x in multiset(ys);
    }
  }

  lemma {:induction false} NoDuplicatesCount<T>(xs: seq<T>, x: T)
    requires NoDuplicates(xs)
    ensures multiset(xs)[x] <= 1
  {
    if xs != [] {
      var front, last := xs[..|xs| - 1], xs[|xs| - 1];
      assert xs == front + [last];
      NoDuplicatesCount(front, x);
      if last == x { assert x !in front; }
    }
  }

  /** Sorting a list without duplicates leaves none. */
  lemma SortedNoDuplicates<T(!new)>(xs: seq<T>, le: (T, T) -> bool)
    requires TotalPreorder(le) && NoDuplicates(xs)
    ensures NoDuplicates(SortBy(xs, le))
  {
    SortByCorrect(xs, le);
    var ys := SortBy(xs, le);
    forall i, j | 0 <= i < j < |ys| ensures ys[i] != ys[j] {
      NoDuplicatesCount(xs, ys[i]);
      assert ys == ys[..j] + [ys[j]] + ys[j + 1..];
      assert ys[i] in ys[..j] && ys[i] in multiset(ys[..j]);
    }
  }

  lemma Cancel<V>(a: multiset<V>, b: multiset<V>, x: V)
    requires a + multiset{x} == b + multiset{x}
    ensures a == b
  {
    assert a == (a + multiset{x}) - multiset{x};
    assert b == (b + multiset{x}) - multiset{x};
  }

  lemma HeadAndTail<V>(xs: seq<V>)
    requires xs != []
    ensures multiset(xs) == multiset(xs[1..]) + multiset{xs[0]}
  {
    assert xs == [xs[0]] + xs[1..];
  }

  lemma SameHead<T(!new)>(a: seq<T>, b: seq<T>, le: (T, T) -> bool)
    requires TotalPreorder(le) && Sorted(a, le) && Sorted(b, le) && multiset(a) == multiset(b)
    requires AntisymmetricOn(le, a) && a != [] && b != []
    ensures a[0] == b[0]
  {
    hide Sorted, TotalPreorder;
    assert a[0] in multiset(b) && b[0] in multiset(a);
    HeadIsLeast(a, b[0], le);
    HeadIsLeast(b, a[0], le);
  }

  /** Determinism of "sorted by this key": when no two elements tie, there is
      exactly one sorted arrangement of a multiset. */
  lemma {:induction false} SortedIsUnique<T(!new)>(a: seq<T>, b: seq<T>, le: (T, T) -> bool)
    requires TotalPreorder(le) && Sorted(a, le) && Sorted(b, le) && multiset(a) == multiset(b)
    requires AntisymmetricOn(le, a)
    ensures a == b
  {
    hide TotalPreorder;
    assert |a| == |multiset(a)| == |multiset(b)| == |b|;
    if a != [] {
      SameHead(a, b, le);
      HeadAndTail(a);
      HeadAndTail(b);
      Cancel(multiset(a[1..]), multiset(b[1..]), a[0]);
      SortedIsUnique(a[1..], b[1..], le);
      assert a == [a[0]] + a[1..] && b == [b[0]] + b[1..];
    }
  }

  /** Two lists of strings sort alike exactly when one is a permutation of the other. */
  lemma SortedStringsAgree(a: seq<string>, b: seq<string>)
    ensures SortBy(a, StrLe) == SortBy(b, StrLe) <==> multiset(a) == multiset(b)
  {
    hide SortBy, StrLe;
    StrLeIsTotalOrder();
    SortByCorrect(a, StrLe);
    SortByCorrect(b, StrLe);
    assert AntisymmetricOn(StrLe, SortBy(a, StrLe));
    if multiset(a) == multiset(b) { SortedIsUnique(SortBy(a, StrLe), SortBy(b, StrLe), StrLe); }
    assert multiset(SortBy(a, StrLe)) == multiset(a);
  }
}
