/** Values shared by the stages (`lncvs.schemas`). */
module Schemas {
  datatype Option<+T> = None | Some(value: T)

  /** The source's exceptions: a stage either returns or raises. */
  datatype Result<+T> = Ok(value: T) | Raised

  /** `Provenance`: a character span of the narrative inside one chunk. */
  datatype Span = Span(chunkId: string, start: nat, end: nat)

  function Min(a: nat, b: nat): nat { if a < b then a else b }

  function Max(a: nat, b: nat): nat { if a < b then b else a }

  function Filter<T>(keep: T -> bool, xs: seq<T>): seq<T> {
    if xs == [] then []
    else Filter(keep, xs[..|xs| - 1]) + if keep(xs[|xs| - 1]) then [xs[|xs| - 1]] else []
  }

  lemma {:induction false} FilterMembers<T>(keep: T -> bool, xs: seq<T>, x: T)
    ensures x in Filter(keep, xs) <==> x in xs && keep(x)
  {
    if xs != [] {
      FilterMembers(keep, xs[..|xs| - 1], x);
      assert xs == xs[..|xs| - 1] + [xs[|xs| - 1]];
    }
  }

  lemma FilterAppend<T>(keep: T -> bool, xs: seq<T>, x: T)
    ensures Filter(keep, xs + [x]) == Filter(keep, xs) + if keep(x) then [x] else []
  {
    assert (xs + [x])[..|xs|] == xs;
  }

  /** Conditions that agree on the members keep the same ones. */
  lemma {:induction false} SameFilters<T>(f: T -> bool, g: T -> bool, xs: seq<T>)
    requires forall x :: x in xs ==> f(x) == g(x)
    ensures Filter(f, xs) == Filter(g, xs)
  {
    if xs != [] { SameFilters(f, g, xs[..|xs| - 1]); }
  }

  /** Filtering twice with a stronger second condition is filtering once. */
  lemma {:induction false} FilterWithin<T(!new)>(keep: T -> bool, within: T -> bool, xs: seq<T>)
    requires forall x :: keep(x) ==> within(x)
    ensures Filter(keep, Filter(within, xs)) == Filter(keep, xs)
  {
    if xs != [] {
      var front, last := xs[..|xs| - 1], xs[|xs| - 1];
      FilterWithin(keep, within, front);
      FilterAppend(keep, Filter(within, front), last);
      assert Filter(within, front) + [] == Filter(within, front);
    }
  }

  /** `" ".join(words)` */
  function JoinWords(words: seq<string>): string {
    if words == [] then ""
    else if |words| == 1 then words[0]
    else JoinWords(words[..|words| - 1]) + " " + words[|words| - 1]
  }

  lemma JoinWordsAppend(words: seq<string>, last: string)
    requires words != []
    ensures JoinWords(words + [last]) == JoinWords(words) + " " + last
  {
    assert (words + [last])[..|words|] == words;
  }
}
