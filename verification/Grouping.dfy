/** Grouping values by a key, as Python's `setdefault(key, []).append(value)`
    does: groups in order of first appearance, members in input order. */
module Grouping {
  import opened Schemas
  import Order

  datatype Groups<K, V> = Groups(keys: seq<K>, of: map<K, seq<V>>)

  function Put<K, V>(g: Groups<K, V>, k: K, v: V): Groups<K, V> {
    if k in g.of then g.(of := g.of[k := g.of[k] + [v]])
    else Groups(g.keys + [k], g.of[k := [v]])
  }

  /** Values without a key belong to no group. */
  function GroupBy<K, V>(key: V -> Option<K>, xs: seq<V>): Groups<K, V> {
    if xs == [] then Groups([], map[])
    else
      var g, last := GroupBy(key, xs[..|xs| - 1]), xs[|xs| - 1];
      if key(last).Some? then Put(g, key(last).value, last) else g
  }

  lemma GroupNone<K, V>(key: V -> Option<K>)
    ensures GroupBy(key, []) == Groups([], map[]) && Filter(Unkeyed(key), []) == []
  {
  }

  lemma GroupNext<K, V>(key: V -> Option<K>, xs: seq<V>, i: nat)
    requires i < |xs|
    ensures GroupBy(key, xs[..i + 1]) ==
      if key(xs[i]).Some? then Put(GroupBy(key, xs[..i]), key(xs[i]).value, xs[i]) else GroupBy(key, xs[..i])
  {
    assert xs[..i + 1][..i] == xs[..i];
  }

  function Has<K(==), V>(key: V -> Option<K>, k: K): V -> bool { x => key(x) == Some(k) }

  function Unkeyed<K, V>(key: V -> Option<K>): V -> bool { x => key(x).None? }

  ghost predicate Tidy<K(!new), V>(g: Groups<K, V>) {
    && Order.NoDuplicates(g.keys)
    && (forall k :: k in g.keys <==> k in g.of)
    && (forall k :: k in g.of ==> g.of[k] != [])
  }

  lemma NoGroupsTidy<K(!new), V>(key: V -> Option<K>)
    ensures Tidy(GroupBy(key, []))
  {
  }

  lemma {:induction false} GroupsAreTidy<K(!new), V>(key: V -> Option<K>, xs: seq<V>)
    ensures Tidy(GroupBy(key, xs))
  {
    hide Tidy;
    if xs == [] {
      NoGroupsTidy(key);
    } else {
      GroupsAreTidy(key, xs[..|xs| - 1]);
      var g, last := GroupBy(key, xs[..|xs| - 1]), xs[|xs| - 1];
      if key(last).Some? { PutKeepsTidy(g, key(last).value, last); }
    }
  }

  /** A group is exactly the values with its key, in input order. */
  lemma {:induction false} GroupIsFilter<K, V>(key: V -> Option<K>, xs: seq<V>, k: K)
    ensures k in GroupBy(key, xs).of <==> Filter(Has(key, k), xs) != []
    ensures k in GroupBy(key, xs).of ==> GroupBy(key, xs).of[k] == Filter(Has(key, k), xs)
  {
    if xs != [] { GroupIsFilter(key, xs[..|xs| - 1], k); }
  }

  lemma GroupMembers<K, V>(key: V -> Option<K>, xs: seq<V>, k: K, x: V)
    ensures k in GroupBy(key, xs).of && x in GroupBy(key, xs).of[k] <==> x in xs && key(x) == Some(k)
  {
    GroupIsFilter(key, xs, k);
    FilterMembers(Has(key, k), xs, x);
  }

  /** The keys of a list of values, one for each value that has one. */
  function KeyList<K, V>(key: V -> Option<K>, xs: seq<V>): seq<K> {
    if xs == [] then []
    else
      var last := key(xs[|xs| - 1]);
      KeyList(key, xs[..|xs| - 1]) + if last.Some? then [last.value] else []
  }

  /** Groups come in the order in which their keys first appear. */
  lemma {:induction false} GroupsInOrder<K(!new), V>(key: V -> Option<K>, xs: seq<V>)
    ensures GroupBy(key, xs).keys == Order.Distinct(KeyList(key, xs))
  {
    hide Tidy;
    if xs != [] {
      var front, last := xs[..|xs| - 1], key(xs[|xs| - 1]);
      GroupsInOrder(key, front);
      if last.Some? {
        KeyIsListed(key, front, last.value);
        assert (KeyList(key, front) + [last.value])[..|KeyList(key, front)|] == KeyList(key, front);
      } else {
        assert KeyList(key, front) + [] == KeyList(key, front);
      }
    }
  }

  lemma KeyIsListed<K(!new), V>(key: V -> Option<K>, xs: seq<V>, k: K)
    ensures k in GroupBy(key, xs).keys <==> k in GroupBy(key, xs).of
  {
    GroupsAreTidy(key, xs);
  }

  // ----- sums over groups -----

  function SumOf<V>(f: V -> real, xs: seq<V>): real {
    if xs == [] then 0.0 else SumOf(f, xs[..|xs| - 1]) + f(xs[|xs| - 1])
  }

  lemma SumAppend<V>(f: V -> real, xs: seq<V>, x: V)
    ensures SumOf(f, xs + [x]) == SumOf(f, xs) + f(x)
  {
    assert (xs + [x])[..|xs|] == xs;
  }

  lemma {:induction false} SumConcat<V>(f: V -> real, a: seq<V>, b: seq<V>)
    ensures SumOf(f, a + b) == SumOf(f, a) + SumOf(f, b)
  {
    if b == [] {
      assert a + b == a;
    } else {
      SumConcat(f, a, b[..|b| - 1]);
      assert (a + b)[..|a + b| - 1] == a + b[..|b| - 1];
    }
  }

  lemma SumWithout<V>(f: V -> real, xs: seq<V>, j: nat)
    requires j < |xs|
    ensures SumOf(f, xs) == SumOf(f, xs[..j] + xs[j + 1..]) + f(xs[j])
    ensures multiset(xs) == multiset(xs[..j] + xs[j + 1..]) + multiset{xs[j]}
  {
    hide SumOf;
    var left, x, right := xs[..j], xs[j], xs[j + 1..];
    assert xs == left + [x] + right;
    SumConcat(f, left, right);
    SumConcat(f, left + [x], right);
    SumAppend(f, left, x);
    assert multiset(left + [x] + right) == multiset(left) + multiset{x} + multiset(right);
  }

  /** Sums do not depend on the order. */
  lemma {:induction false} SumOfPermuted<V>(f: V -> real, a: seq<V>, b: seq<V>)
    requires multiset(a) == multiset(b)
    ensures SumOf(f, a) == SumOf(f, b)
  {
    hide SumOf;
    assert |multiset(a)| == |a| && |multiset(b)| == |b|;
    if a == [] {
      assert b == [];
    } else {
      assert a[0] in multiset(b);
      var j :| 0 <= j < |b| && b[j] == a[0];
      SumWithout(f, a, 0);
      SumWithout(f, b, j);
      var c, d := a[..0] + a[1..], b[..j] + b[j + 1..];
      Order.Cancel(multiset(c), multiset(d), a[0]);
      SumOfPermuted(f, c, d);
    }
  }

  /** How many values satisfy `keep`, as a sum. */
  function Indicator<V>(keep: V -> bool): V -> real { x => if keep(x) then 1.0 else 0.0 }

  lemma {:induction false} CountIsSum<V>(keep: V -> bool, xs: seq<V>)
    ensures |Filter(keep, xs)| as real == SumOf(Indicator(keep), xs)
  {
    if xs != [] { CountIsSum(keep, xs[..|xs| - 1]); }
  }

  lemma CountOfPermuted<V>(keep: V -> bool, a: seq<V>, b: seq<V>)
    requires multiset(a) == multiset(b)
    ensures |Filter(keep, a)| == |Filter(keep, b)|
  {
    CountIsSum(keep, a);
    CountIsSum(keep, b);
    SumOfPermuted(Indicator(keep), a, b);
  }

  function TotalOf<K(!new), V>(f: V -> real, of: map<K, seq<V>>, keys: seq<K>): real
    requires forall k :: k in keys ==> k in of
  {
    if keys == [] then 0.0
    else TotalOf(f, of, keys[..|keys| - 1]) + SumOf(f, of[keys[|keys| - 1]])
  }

  lemma {:induction false} TotalUntouched<K(!new), V>(f: V -> real, of: map<K, seq<V>>, keys: seq<K>, k: K, vs: seq<V>)
    requires (forall x :: x in keys ==> x in of) && k !in keys
    ensures TotalOf(f, of[k := vs], keys) == TotalOf(f, of, keys)
  {
    if keys != [] { TotalUntouched(f, of, keys[..|keys| - 1], k, vs); }
  }

  /** A new member of group `k` raises the total by its own value. */
  lemma {:induction false} TotalRaised<K(!new), V>(f: V -> real, of: map<K, seq<V>>, keys: seq<K>, k: K, v: V)
    requires (forall x :: x in keys ==> x in of) && Order.NoDuplicates(keys) && k in keys
    ensures TotalOf(f, of[k := of[k] + [v]], keys) == TotalOf(f, of, keys) + f(v)
  {
    var front, last := keys[..|keys| - 1], keys[|keys| - 1];
    if last == k {
      TotalUntouched(f, of, front, k, of[k] + [v]);
      SumAppend(f, of[k], v);
    } else {
      TotalRaised(f, of, front, k, v);
    }
  }

  lemma PutKeepsTidy<K(!new), V>(g: Groups<K, V>, k: K, v: V)
    requires Tidy(g)
    ensures Tidy(Put(g, k, v))
  {
  }

  lemma PutRaisesTotal<K(!new), V>(f: V -> real, g: Groups<K, V>, k: K, v: V)
    requires Tidy(g) && Tidy(Put(g, k, v))
    ensures TotalOf(f, Put(g, k, v).of, Put(g, k, v).keys) == TotalOf(f, g.of, g.keys) + f(v)
  {
    if k in g.of {
      TotalRaised(f, g.of, g.keys, k, v);
    } else {
      var keys := g.keys + [k];
      assert keys[..|keys| - 1] == g.keys && keys[|keys| - 1] == k;
      TotalOfNew(f, g.of, g.keys, k, v);
    }
  }

  lemma TotalOfNew<K(!new), V>(f: V -> real, of: map<K, seq<V>>, keys: seq<K>, k: K, v: V)
    requires (forall x :: x in keys ==> x in of) && k !in keys
    ensures TotalOf(f, of[k := [v]], keys + [k]) == TotalOf(f, of, keys) + f(v)
  {
    TotalUntouched(f, of, keys, k, [v]);
    assert (keys + [k])[..|keys|] == keys;
    assert [v] == [] + [v];
    SumAppend(f, [], v);
  }

  /** Conservation: the groups and the values left out account for every value once. */
  lemma {:induction false} NothingLost<K(!new), V>(f: V -> real, key: V -> Option<K>, xs: seq<V>)
    ensures Tidy(GroupBy(key, xs))
    ensures TotalOf(f, GroupBy(key, xs).of, GroupBy(key, xs).keys) + SumOf(f, Filter(Unkeyed(key), xs)) == SumOf(f, xs)
  {
    hide Tidy, Put;
    GroupsAreTidy(key, xs);
    if xs != [] {
      var front, v := xs[..|xs| - 1], xs[|xs| - 1];
      NothingLost(f, key, front);
      if key(v).None? {
        SumAppend(f, Filter(Unkeyed(key), front), v);
      } else {
        PutKeepsTidy(GroupBy(key, front), key(v).value, v);
        PutRaisesTotal(f, GroupBy(key, front), key(v).value, v);
        assert Filter(Unkeyed(key), xs) == Filter(Unkeyed(key), front);
      }
    } else {
      GroupsAreTidy(key, []);
    }
  }
}
