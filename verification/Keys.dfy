/** Keys and identities are hashes of fields joined by colons: what such a joined
    text says of its fields. */
module Keys {
  /** The content hash, taken to be injective. */
  ghost predicate Injective(digest: string -> string) { forall a, b :: digest(a) == digest(b) ==> a == b }

  predicate NoColon(s: string) { ':' !in s }

  function FirstColon(s: string): nat { if s == "" || s[0] == ':' then 0 else 1 + FirstColon(s[1..]) }

  lemma {:induction false} FirstColonOf(a: string, s: string)
    requires NoColon(a)
    ensures FirstColon(a + ":" + s) == |a|
  {
    if a != "" {
      FirstColonOf(a[1..], s);
      assert (a + ":" + s)[1..] == a[1..] + ":" + s;
    }
  }

  lemma ColonFreePrefix(a: string, b: string, s: string, t: string)
    requires NoColon(a) && NoColon(b) && a + ":" + s == b + ":" + t
    ensures a == b && s == t
  {
    FirstColonOf(a, s);
    FirstColonOf(b, t);
    var whole := a + ":" + s;
    assert a == whole[..|a|] && b == whole[..|b|] && s == whole[|a| + 1..] && t == whole[|b| + 1..];
  }

  predicate PrefixOf(a: string, b: string) { |a| <= |b| && b[..|a|] == a }

  lemma PrefixSplit(a: string, b: string, s: string, t: string)
    requires a + s == b + t && |a| <= |b|
    ensures PrefixOf(a, b)
  {
    var whole := b + t;
    assert whole[..|b|] == b && whole[..|a|] == a;
    assert b[..|a|] == whole[..|b|][..|a|];
  }

  /** A colon-free end is told apart from the rest by the last colon. */
  lemma ColonFreeSuffix(a: string, b: string, s: string, t: string)
    requires NoColon(s) && NoColon(t) && a + ":" + s == b + ":" + t
    ensures a == b && s == t
  {
    if |s| < |t| { ColonWouldBeInside(a, b, s, t); }
    if |t| < |s| { ColonWouldBeInside(b, a, t, s); }
    var whole := a + ":" + s;
    assert s == whole[|a| + 1..] && t == whole[|b| + 1..] && a == whole[..|a|] && b == whole[..|b|];
  }

  lemma ColonWouldBeInside(a: string, b: string, s: string, t: string)
    requires a + ":" + s == b + ":" + t && |s| < |t|
    ensures ':' in t
  {
    var x := |t| - |s| - 1;
    assert t[x] == (b + ":" + t)[|b| + 1 + x] == (a + ":" + s)[|a|] == ':';
  }
}
