/** The batching embedder cache, and the keys of the model caches. */
module Caches {
  import opened Schemas
  import opened Keys

  // ----- keys -----

  /** `sha256(f"{fingerprint}:{text}")` */
  function Key(digest: string -> string, fingerprint: string, text: string): string { digest(fingerprint + ":" + text) }

  /** Keys of one fingerprint and one text never serve another. */
  lemma KeysDiffer(digest: string -> string, fa: string, a: string, fb: string, b: string)
    requires Injective(digest) && NoColon(fa) && NoColon(fb)
    ensures Key(digest, fa, a) == Key(digest, fb, b) <==> fa == fb && a == b
  {
    if Key(digest, fa, a) == Key(digest, fb, b) { ColonFreePrefix(fa, fb, a, b); }
  }

  // ----- the embedder cache -----

  type Vector = seq<real>
  type Store = map<string, Vector>

  /** The inner embedder, which remembers what it was asked. */
  class Embedder {
    const embed: string -> Vector
    var requests: seq<seq<string>>

    constructor (embed: string -> Vector)
      ensures this.embed == embed && requests == []
    {
      this.embed := embed;
      requests := [];
    }

    method EmbedTexts(texts: seq<string>) returns (vectors: seq<Vector>)
      modifies this
      ensures requests == old(requests) + [texts]
      ensures |vectors| == |texts| && forall i :: 0 <= i < |texts| ==> vectors[i] == embed(texts[i])
    {
      requests := requests + [texts];
      vectors := seq(|texts|, i requires 0 <= i < |texts| => embed(texts[i]));
    }
  }

  /** `InMemoryEmbeddingCache` */
  class EmbeddingCache {
    var store: Store

    constructor ()
      ensures store == map[]
    {
      store := map[];
    }

    method Put(key: string, vector: Vector)
      modifies this
      ensures store == old(store)[key := vector]
    {
      store := store[key := vector];
    }
  }

  /** Every vector under a fingerprint's key is the one its model gives. */
  ghost predicate Faithful(digest: string -> string, model: string -> string -> Vector, store: Store) {
    forall f, t :: NoColon(f) && Key(digest, f, t) in store ==> store[Key(digest, f, t)] == model(f)(t)
  }

  function MissingFrom(digest: string -> string, fingerprint: string, store: Store): string -> bool {
    t => Key(digest, fingerprint, t) !in store
  }

  /** The store once the texts have been asked for. */
  function Filled(digest: string -> string, fingerprint: string, embed: string -> Vector, store: Store,
                  texts: seq<string>): Store {
    if texts == [] then store
    else
      var s, t := Filled(digest, fingerprint, embed, store, texts[..|texts| - 1]), texts[|texts| - 1];
      if Key(digest, fingerprint, t) in store then s else s[Key(digest, fingerprint, t) := embed(t)]
  }

  function Answers(digest: string -> string, fingerprint: string, embed: string -> Vector, store: Store,
                   texts: seq<string>): seq<Vector> {
    seq(|texts|, i requires 0 <= i < |texts| =>
      if Key(digest, fingerprint, texts[i]) in store then store[Key(digest, fingerprint, texts[i])]
        else embed(texts[i]))
  }

  /** Positions of the missing texts among the first `n`. */
  function MissIndices(keys: seq<string>, store: Store, n: nat): (misses: seq<nat>)
    requires n <= |keys|
    ensures forall m :: m in misses ==> m < n
  {
    if n == 0 then [] else MissIndices(keys, store, n - 1) + if keys[n - 1] in store then [] else [n - 1]
  }

  class CachingEmbedder {
    const digest: string -> string
    const inner: Embedder
    const cache: EmbeddingCache
    const fingerprint: string

    constructor (digest: string -> string, inner: Embedder, cache: EmbeddingCache, fingerprint: string)
      ensures this.digest == digest && this.inner == inner && this.cache == cache && this.fingerprint == fingerprint
    {
      this.digest, this.inner, this.cache, this.fingerprint := digest, inner, cache, fingerprint;
    }

    /** Raises on no texts. Otherwise cached vectors are returned as they are, the
        inner embedder is asked once for exactly the texts missing at call start, in
        order and with repeats, or not at all, and its answers are stored. */
    method EmbedTexts(texts: seq<string>) returns (r: Result<seq<Vector>>)
      modifies inner, cache
      ensures r == if texts == [] then Raised
        else Ok(Answers(digest, fingerprint, inner.embed, old(cache.store), texts))
      ensures cache.store == Filled(digest, fingerprint, inner.embed, old(cache.store), texts)
      ensures var missing := Filter(MissingFrom(digest, fingerprint, old(cache.store)), texts);
        inner.requests == old(inner.requests) + if missing == [] then [] else [missing]
    {
      hide Filled, Filter, Answered, Keyed;
      if texts == [] {
        NoTexts(digest, fingerprint, inner.embed, cache.store);
        return Raised;
      }
      var store := cache.store;
      var keys := KeysOf(digest, fingerprint, texts);
      KeyedLength(digest, fingerprint, texts, keys);
      var cached := Lookups(keys, store);
      var misses := MissIndices(keys, store, |texts|);
      MissesAreMissing(digest, fingerprint, store, texts, keys, |texts|);
      assert texts[..|texts|] == texts;
      if misses != [] {
        var asked := seq(|misses|, m requires 0 <= m < |misses| => assert misses[m] in misses; texts[misses[m]]);
        AskedIsUnique(texts, misses, asked, Filter(MissingFrom(digest, fingerprint, store), texts));
        LookupsAnswer(inner.embed, store, texts, keys);
        var vectors := inner.EmbedTexts(asked);
        cached := StoreMisses(texts, keys, misses, vectors, cached);
      } else {
        NothingMissing(digest, fingerprint, inner.embed, store, texts, keys);
      }
      var result := Unwrap(texts, keys, store, cached);
      return Ok(result);
    }

    /** Every entry is filled by this point. */
    method Unwrap(texts: seq<string>, keys: seq<string>, store: Store, cached: seq<Option<Vector>>)
      returns (result: seq<Vector>)
      requires Keyed(digest, fingerprint, texts, keys) && Answered(inner.embed, store, texts, keys, cached, |texts|)
      ensures result == Answers(digest, fingerprint, inner.embed, store, texts)
    {
      hide Key;
      result := [];
      for i := 0 to |texts|
        invariant |result| == i
        invariant forall j :: 0 <= j < i ==> result[j] == Answers(digest, fingerprint, inner.embed, store, texts)[j]
      {
        result := result + [cached[i].value];
      }
    }

    /** `zip(miss_indices, miss_vectors)`: store each new vector and fill its places. */
    method StoreMisses(texts: seq<string>, keys: seq<string>, misses: seq<nat>, vectors: seq<Vector>,
                       cached0: seq<Option<Vector>>)
      returns (cached: seq<Option<Vector>>)
      requires Keyed(digest, fingerprint, texts, keys) && Answered(inner.embed, cache.store, texts, keys, cached0, 0)
      requires misses == MissIndices(keys, cache.store, |texts|)
      requires |vectors| == |misses|
      requires forall m :: 0 <= m < |misses| ==> misses[m] < |texts| && vectors[m] == inner.embed(texts[misses[m]])
      modifies cache
      ensures cache.store == Filled(digest, fingerprint, inner.embed, old(cache.store), texts)
      ensures Answered(inner.embed, old(cache.store), texts, keys, cached, |texts|)
    {
      hide Key, Filled, MissIndices, Answered, AllIn, Keyed;
      var store0 := cache.store;
      cached := cached0;
      var done := 0;
      KeyedLength(digest, fingerprint, texts, keys);
      NothingDone(digest, fingerprint, inner.embed, store0, texts, keys);
      for m := 0 to |misses|
        invariant done <= |texts| && MissIndices(keys, store0, done) == misses[..m]
        invariant cache.store == Filled(digest, fingerprint, inner.embed, store0, texts[..done])
        invariant Answered(inner.embed, store0, texts, keys, cached, done)
      {
        var i := misses[m];
        NextMiss(digest, fingerprint, inner.embed, store0, texts, keys, done, misses, m);
        AnsweredNext(inner.embed, store0, texts, keys, cached, done, i);
        cache.Put(keys[i], vectors[m]);
        cached := cached[i := Some(vectors[m])];
        done := i + 1;
      }
      LastMiss(digest, fingerprint, inner.embed, store0, texts, keys, done, misses);
      AnsweredAll(inner.embed, store0, texts, keys, cached, done);
    }

    /** `embed_query` */
    method EmbedQuery(text: string) returns (v: Vector)
      modifies inner, cache
      ensures v == Answers(digest, fingerprint, inner.embed, old(cache.store), [text])[0]
      ensures cache.store == Filled(digest, fingerprint, inner.embed, old(cache.store), [text])
    {
      var r := EmbedTexts([text]);
      v := r.value[0];
    }
  }

  function KeysOf(digest: string -> string, fingerprint: string, texts: seq<string>): (keys: seq<string>)
    ensures Keyed(digest, fingerprint, texts, keys)
  {
    seq(|texts|, i requires 0 <= i < |texts| => Key(digest, fingerprint, texts[i]))
  }

  ghost predicate Keyed(digest: string -> string, fingerprint: string, texts: seq<string>, keys: seq<string>) {
    |keys| == |texts| && forall i :: 0 <= i < |texts| ==> keys[i] == Key(digest, fingerprint, texts[i])
  }

  lemma KeyedLength(digest: string -> string, fingerprint: string, texts: seq<string>, keys: seq<string>)
    requires Keyed(digest, fingerprint, texts, keys)
    ensures |keys| == |texts|
  {
  }

  function Lookups(keys: seq<string>, store: Store): seq<Option<Vector>> {
    seq(|keys|, i requires 0 <= i < |keys| => if keys[i] in store then Some(store[keys[i]]) else None)
  }

  /** Places hold cached vectors, and new ones before `done`. */
  ghost predicate Answered(embed: string -> Vector, store: Store, texts: seq<string>, keys: seq<string>,
                           cached: seq<Option<Vector>>, done: nat)
  {
    && |keys| == |texts| == |cached|
    && forall j :: 0 <= j < |texts| ==>
         cached[j] == if keys[j] in store then Some(store[keys[j]]) else if j < done then Some(embed(texts[j]))
           else None
  }

  predicate AllIn(keys: seq<string>, store: Store, from: nat, to: nat) {
    to <= |keys| && forall j :: from <= j < to ==> keys[j] in store
  }

  lemma LookupsAnswer(embed: string -> Vector, store: Store, texts: seq<string>, keys: seq<string>)
    requires |keys| == |texts|
    ensures Answered(embed, store, texts, keys, Lookups(keys, store), 0)
  {
  }

  lemma AnsweredNext(embed: string -> Vector, store: Store, texts: seq<string>, keys: seq<string>,
                     cached: seq<Option<Vector>>, done: nat, i: nat)
    requires Answered(embed, store, texts, keys, cached, done) && done <= i < |texts| && AllIn(keys, store, done, i)
    requires keys[i] !in store
    ensures i < |cached| && Answered(embed, store, texts, keys, cached[i := Some(embed(texts[i]))], i + 1)
  {
  }

  lemma AnsweredAll(embed: string -> Vector, store: Store, texts: seq<string>, keys: seq<string>,
                    cached: seq<Option<Vector>>, done: nat)
    requires Answered(embed, store, texts, keys, cached, done) && AllIn(keys, store, done, |texts|)
    ensures Answered(embed, store, texts, keys, cached, |texts|)
  {
  }

  lemma NoTexts(digest: string -> string, fingerprint: string, embed: string -> Vector, store: Store)
    ensures Filled(digest, fingerprint, embed, store, []) == store
    ensures Filter(MissingFrom(digest, fingerprint, store), []) == []
  {
  }

  lemma NothingDone(digest: string -> string, fingerprint: string, embed: string -> Vector, store: Store,
                    texts: seq<string>, keys: seq<string>)
    requires Keyed(digest, fingerprint, texts, keys)
    ensures MissIndices(keys, store, 0) == []
    ensures Filled(digest, fingerprint, embed, store, texts[..0]) == store
  {
  }

  /** `asked` lists the texts at the missing positions. */
  ghost predicate Asked(texts: seq<string>, misses: seq<nat>, asked: seq<string>) {
    |asked| == |misses| && forall m :: 0 <= m < |misses| ==> misses[m] < |texts| && asked[m] == texts[misses[m]]
  }

  lemma AskedIsUnique(texts: seq<string>, misses: seq<nat>, a: seq<string>, b: seq<string>)
    requires Asked(texts, misses, a) && Asked(texts, misses, b)
    ensures a == b
  {
  }

  lemma {:induction false} MissesAreMissing(digest: string -> string, fingerprint: string, store: Store,
                                            texts: seq<string>, keys: seq<string>, n: nat)
    requires Keyed(digest, fingerprint, texts, keys) && n <= |texts| == |keys|
    ensures Asked(texts, MissIndices(keys, store, n), Filter(MissingFrom(digest, fingerprint, store), texts[..n]))
  {
    hide Key;
    if n != 0 {
      MissesAreMissing(digest, fingerprint, store, texts, keys, n - 1);
      assert texts[..n] == texts[..n - 1] + [texts[n - 1]];
      FilterAppend(MissingFrom(digest, fingerprint, store), texts[..n - 1], texts[n - 1]);
    }
  }

  /** A stretch of cached texts adds nothing. */
  lemma {:induction false} FilledUpTo(digest: string -> string, fingerprint: string, embed: string -> Vector,
                                      store: Store, texts: seq<string>, keys: seq<string>, from: nat, to: nat)
    requires Keyed(digest, fingerprint, texts, keys) && from <= to <= |texts| && AllIn(keys, store, from, to)
    ensures Filled(digest, fingerprint, embed, store, texts[..to])
      == Filled(digest, fingerprint, embed, store, texts[..from])
    ensures MissIndices(keys, store, to) == MissIndices(keys, store, from)
  {
    hide Key;
    if from < to {
      FilledUpTo(digest, fingerprint, embed, store, texts, keys, from, to - 1);
      assert texts[..to][..to - 1] == texts[..to - 1];
    }
  }

  lemma {:induction false} MissesGrow(keys: seq<string>, store: Store, i: nat, n: nat)
    requires i <= n <= |keys|
    ensures MissIndices(keys, store, i) <= MissIndices(keys, store, n)
  {
    if i < n { MissesGrow(keys, store, i, n - 1); }
  }

  /** The first missing position from `done` on is the next in the list of misses. */
  lemma {:induction false} FirstMiss(keys: seq<string>, store: Store, done: nat, n: nat) returns (i: nat)
    requires done <= n <= |keys|
    ensures done <= i <= n && AllIn(keys, store, done, i)
    ensures i < n ==> keys[i] !in store && MissIndices(keys, store, done) + [i] <= MissIndices(keys, store, n)
    ensures i == n ==> MissIndices(keys, store, n) == MissIndices(keys, store, done)
    decreases n - done
  {
    if done == n {
      i := n;
    } else if keys[done] !in store {
      i := done;
      MissesGrow(keys, store, done + 1, n);
    } else {
      i := FirstMiss(keys, store, done + 1, n);
    }
  }

  lemma NextMiss(digest: string -> string, fingerprint: string, embed: string -> Vector, store: Store,
                 texts: seq<string>, keys: seq<string>, done: nat, misses: seq<nat>, m: nat)
    requires Keyed(digest, fingerprint, texts, keys) && |keys| == |texts| && done <= |texts| && m < |misses|
    requires misses == MissIndices(keys, store, |texts|) && MissIndices(keys, store, done) == misses[..m]
    ensures done <= misses[m] < |texts| && keys[misses[m]] !in store && AllIn(keys, store, done, misses[m])
    ensures MissIndices(keys, store, misses[m] + 1) == misses[..m + 1]
    ensures Filled(digest, fingerprint, embed, store, texts[..misses[m] + 1])
            == Filled(digest, fingerprint, embed, store, texts[..done])[keys[misses[m]] := embed(texts[misses[m]])]
  {
    hide Key, Filled, MissIndices, AllIn;
    var i := FirstMiss(keys, store, done, |texts|);
    assert |MissIndices(keys, store, done)| == m < |MissIndices(keys, store, |texts|)|;
    assert (misses[..m] + [i])[m] == misses[m];
    FilledUpTo(digest, fingerprint, embed, store, texts, keys, done, i);
    MissAdds(digest, fingerprint, embed, store, texts, keys, i);
  }

  lemma MissAdds(digest: string -> string, fingerprint: string, embed: string -> Vector, store: Store,
                 texts: seq<string>, keys: seq<string>, i: nat)
    requires Keyed(digest, fingerprint, texts, keys) && i < |texts| == |keys| && keys[i] !in store
    ensures Filled(digest, fingerprint, embed, store, texts[..i + 1])
            == Filled(digest, fingerprint, embed, store, texts[..i])[keys[i] := embed(texts[i])]
    ensures MissIndices(keys, store, i + 1) == MissIndices(keys, store, i) + [i]
  {
    assert texts[..i + 1][..i] == texts[..i];
  }

  lemma LastMiss(digest: string -> string, fingerprint: string, embed: string -> Vector, store: Store,
                 texts: seq<string>, keys: seq<string>, done: nat, misses: seq<nat>)
    requires Keyed(digest, fingerprint, texts, keys) && |keys| == |texts| && done <= |texts|
    requires misses == MissIndices(keys, store, |texts|) && MissIndices(keys, store, done) == misses
    ensures Filled(digest, fingerprint, embed, store, texts[..done]) == Filled(digest, fingerprint, embed, store, texts)
    ensures AllIn(keys, store, done, |texts|)
  {
    hide Key, Filled, MissIndices, AllIn;
    var i := FirstMiss(keys, store, done, |texts|);
    FilledUpTo(digest, fingerprint, embed, store, texts, keys, done, i);
    assert texts[..|texts|] == texts;
  }

  lemma NothingMissing(digest: string -> string, fingerprint: string, embed: string -> Vector, store: Store,
                       texts: seq<string>, keys: seq<string>)
    requires Keyed(digest, fingerprint, texts, keys) && |keys| == |texts| && MissIndices(keys, store, |texts|) == []
    ensures Filled(digest, fingerprint, embed, store, texts) == store
    ensures Answered(embed, store, texts, keys, Lookups(keys, store), |texts|)
  {
    LastMiss(digest, fingerprint, embed, store, texts, keys, 0, []);
  }

  // ----- transparency over every interleaving -----

  /** One call by the embedder with this fingerprint. */
  datatype EmbedCall = EmbedCall(fingerprint: string, texts: seq<string>)

  function After(digest: string -> string, model: string -> string -> Vector, store: Store, c: EmbedCall): Store {
    Filled(digest, c.fingerprint, model(c.fingerprint), store, c.texts)
  }

  function AfterAll(digest: string -> string, model: string -> string -> Vector, store: Store,
                    calls: seq<EmbedCall>): Store {
    if calls == [] then store
    else After(digest, model, AfterAll(digest, model, store, calls[..|calls| - 1]), calls[|calls| - 1])
  }

  lemma {:induction false} CallKeepsFaith(digest: string -> string, model: string -> string -> Vector, store: Store,
                                          fingerprint: string, texts: seq<string>)
    requires Injective(digest) && NoColon(fingerprint) && Faithful(digest, model, store)
    ensures Faithful(digest, model, Filled(digest, fingerprint, model(fingerprint), store, texts))
  {
    hide Key, Injective;
    if texts != [] {
      var front, last := texts[..|texts| - 1], texts[|texts| - 1];
      CallKeepsFaith(digest, model, store, fingerprint, front);
      var filled := Filled(digest, fingerprint, model(fingerprint), store, texts);
      forall f, t | NoColon(f) && Key(digest, f, t) in filled ensures filled[Key(digest, f, t)] == model(f)(t) {
        KeysDiffer(digest, f, t, fingerprint, last);
      }
    }
  }

  /** After any interleaving of calls by embedders with different fingerprints on
      one shared store, a call returns its own inner embedding of every text. */
  lemma {:induction false} CacheIsTransparent(digest: string -> string, model: string -> string -> Vector,
                                              calls: seq<EmbedCall>, c: EmbedCall)
    requires Injective(digest) && NoColon(c.fingerprint) && forall d :: d in calls ==> NoColon(d.fingerprint)
    ensures Faithful(digest, model, AfterAll(digest, model, map[], calls))
    ensures Answers(digest, c.fingerprint, model(c.fingerprint), AfterAll(digest, model, map[], calls), c.texts)
            == seq(|c.texts|, i requires 0 <= i < |c.texts| => model(c.fingerprint)(c.texts[i]))
  {
    hide Key, Injective;
    AllCallsKeepFaith(digest, model, calls);
    var store := AfterAll(digest, model, map[], calls);
    forall i | 0 <= i < |c.texts|
      ensures Answers(digest, c.fingerprint, model(c.fingerprint), store, c.texts)[i]
        == model(c.fingerprint)(c.texts[i]) { }
  }

  lemma {:induction false} AllCallsKeepFaith(digest: string -> string, model: string -> string -> Vector,
                                             calls: seq<EmbedCall>)
    requires Injective(digest) && forall d :: d in calls ==> NoColon(d.fingerprint)
    ensures Faithful(digest, model, AfterAll(digest, model, map[], calls))
  {
    hide Filled, Injective;
    if calls != [] {
      var front, last := calls[..|calls| - 1], calls[|calls| - 1];
      assert last in calls && forall d :: d in front ==> d in calls;
      AllCallsKeepFaith(digest, model, front);
      CallKeepsFaith(digest, model, AfterAll(digest, model, map[], front), last.fingerprint, last.texts);
    }
  }
}
