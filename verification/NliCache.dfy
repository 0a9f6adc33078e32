/** The cache around the natural-language-inference model, keyed by premise and hypothesis joined by a colon. */
module NliCache {
  import opened Schemas
  import opened Keys
  import opened Caches
  import opened Rules

  datatype Prediction = Prediction(kind: Label, score: real)

  /** The premise and the hypothesis of one call. */
  type Ask = (string, string)

  function Joined(a: Ask): string { a.0 + ":" + a.1 }

  function AskKey(digest: string -> string, fingerprint: string, a: Ask): string {
    Key(digest, fingerprint, Joined(a))
  }

  type Predictions = map<string, Prediction>

  function Reply(key: string, model: Ask -> Result<Prediction>, store: Predictions, a: Ask): Result<Prediction> {
    if key in store then Ok(store[key]) else model(a)
  }

  function Filed(key: string, model: Ask -> Result<Prediction>, store: Predictions, a: Ask): Predictions {
    if key !in store && model(a).Ok? then store[key := model(a).value] else store
  }

  class CachingNliModel {
    const digest: string -> string
    const fingerprint: string
    const model: Ask -> Result<Prediction>
    var store: Predictions

    constructor (digest: string -> string, fingerprint: string, model: Ask -> Result<Prediction>, store: Predictions)
      ensures this.digest == digest && this.fingerprint == fingerprint && this.model == model && this.store == store
    {
      this.digest, this.fingerprint, this.model, this.store := digest, fingerprint, model, store;
    }

    /** A hit is answered from the store; a miss asks the model and files what it returns. */
    method Predict(premise: string, hypothesis: string) returns (r: Result<Prediction>)
      modifies this
      ensures var a := (premise, hypothesis); var key := AskKey(digest, fingerprint, a);
        r == Reply(key, model, old(store), a) && store == Filed(key, model, old(store), a)
    {
      var key := AskKey(digest, fingerprint, (premise, hypothesis));
      if key in store { return Ok(store[key]); }
      r := model((premise, hypothesis));
      if r.Ok? { store := store[key := r.value]; }
    }
  }

  // ----- whole runs -----

  /** The store after a run of calls that starts with an empty one. */
  function AfterRun(digest: string -> string, f: string, model: Ask -> Result<Prediction>, asks: seq<Ask>): Predictions
  {
    if asks == [] then map[]
    else
      var a := asks[|asks| - 1];
      Filed(AskKey(digest, f, a), model, AfterRun(digest, f, model, asks[..|asks| - 1]), a)
  }

  /** What call `x` of a run answers. */
  function ReplyAt(digest: string -> string, f: string, model: Ask -> Result<Prediction>, asks: seq<Ask>,
                   x: nat): Result<Prediction>
    requires x < |asks|
  {
    Reply(AskKey(digest, f, asks[x]), model, AfterRun(digest, f, model, asks[..x]), asks[x])
  }

  ghost predicate Transparent(digest: string -> string, f: string, model: Ask -> Result<Prediction>, asks: seq<Ask>) {
    forall x :: 0 <= x < |asks| ==> ReplyAt(digest, f, model, asks, x) == model(asks[x])
  }

  /** No two calls join to one text unless they are the same call. */
  predicate NoMixups(asks: seq<Ask>) {
    forall i, j :: 0 <= i < j < |asks| && Joined(asks[i]) == Joined(asks[j]) ==> asks[i] == asks[j]
  }

  /** Every entry was put there by an earlier call with its key. */
  lemma {:induction false} EntryHasAsk(digest: string -> string, f: string, model: Ask -> Result<Prediction>,
                                       asks: seq<Ask>, key: string) returns (i: nat)
    requires key in AfterRun(digest, f, model, asks)
    ensures i < |asks| && AskKey(digest, f, asks[i]) == key
    ensures model(asks[i]) == Ok(AfterRun(digest, f, model, asks)[key])
  {
    hide AskKey;
    i := |asks| - 1;
    if key in AfterRun(digest, f, model, asks[..i]) { i := EntryHasAsk(digest, f, model, asks[..i], key); }
  }

  /** An entry is never replaced. */
  lemma {:induction false} EntryStays(digest: string -> string, f: string, model: Ask -> Result<Prediction>,
                                      asks: seq<Ask>, n: nat, key: string)
    requires n <= |asks| && key in AfterRun(digest, f, model, asks[..n])
    ensures key in AfterRun(digest, f, model, asks)
    ensures AfterRun(digest, f, model, asks)[key] == AfterRun(digest, f, model, asks[..n])[key]
  {
    hide AskKey;
    if n == |asks| {
      assert asks[..n] == asks;
    } else {
      var front := asks[..|asks| - 1];
      assert front[..n] == asks[..n];
      EntryStays(digest, f, model, front, n, key);
    }
  }

  /** A model that calls one pair a contradiction and every other neutral. */
  function Only(a: Ask): Ask -> Result<Prediction> {
    b => Ok(Prediction(if a == b then Contradiction else Neutral, 1.0))
  }

  lemma MixupShows(digest: string -> string, f: string, asks: seq<Ask>, i: nat, j: nat)
    requires i < j < |asks| && Joined(asks[i]) == Joined(asks[j]) && asks[i] != asks[j]
    ensures !Transparent(digest, f, Only(asks[j]), asks)
  {
    var model, key := Only(asks[j]), AskKey(digest, f, asks[i]);
    if ReplyAt(digest, f, model, asks, i) == model(asks[i]) {
      assert asks[..i + 1][..i] == asks[..i] && asks[..i + 1][i] == asks[i];
      assert asks[..j][..i + 1] == asks[..i + 1];
      EntryStays(digest, f, model, asks[..j], i + 1, key);
      assert ReplyAt(digest, f, model, asks, j) != model(asks[j]);
    }
  }

  /** Whatever the model, every call of a run is answered as the model would,
      exactly when no two different calls join to one text. */
  lemma TransparentIff(digest: string -> string, f: string, asks: seq<Ask>)
    requires Injective(digest)
    ensures (forall model :: Transparent(digest, f, model, asks)) <==> NoMixups(asks)
  {
    hide AfterRun;
    if NoMixups(asks) {
      forall model, x | 0 <= x < |asks| ensures ReplyAt(digest, f, model, asks, x) == model(asks[x]) {
        var key := AskKey(digest, f, asks[x]);
        if key in AfterRun(digest, f, model, asks[..x]) {
          var i := EntryHasAsk(digest, f, model, asks[..x], key);
          SameKeySameText(digest, f, asks[i], asks[x]);
        }
      }
    } else {
      var i, j :| 0 <= i < j < |asks| && Joined(asks[i]) == Joined(asks[j]) && asks[i] != asks[j];
      MixupShows(digest, f, asks, i, j);
    }
  }

  lemma SameKeySameText(digest: string -> string, f: string, a: Ask, b: Ask)
    requires Injective(digest) && AskKey(digest, f, a) == AskKey(digest, f, b)
    ensures Joined(a) == Joined(b)
  {
    var start := f + ":";
    assert (start + Joined(a))[|start|..] == (start + Joined(b))[|start|..];
  }

  /** Premises without a colon never mix up: the first colon ends the premise. */
  lemma ColonFreePremises(asks: seq<Ask>)
    requires forall a :: a in asks ==> NoColon(a.0)
    ensures NoMixups(asks)
  {
    forall i, j | 0 <= i < j < |asks| && Joined(asks[i]) == Joined(asks[j]) ensures asks[i] == asks[j] {
      assert asks[i] in asks && asks[j] in asks;
      ColonFreePrefix(asks[i].0, asks[j].0, asks[i].1, asks[j].1);
    }
  }

  /** A different configuration never reads back a prediction, whatever the pairs. */
  lemma FingerprintsNeverShare(digest: string -> string, f: string, a: Ask, g: string, b: Ask)
    requires Injective(digest) && NoColon(f) && NoColon(g) && AskKey(digest, f, a) == AskKey(digest, g, b)
    ensures f == g && Joined(a) == Joined(b)
  {
    KeysDiffer(digest, f, Joined(a), g, Joined(b));
  }

  /** Two calls that differ only in where the premise ends are mixed up. */
  lemma ColonMixesUp()
    ensures !NoMixups([("he said", "no: never"), ("he said:no", " never")])
  {
    var a, b := ("he said", "no: never"), ("he said:no", " never");
    assert Joined(a) == Joined(b);
    assert [a, b][0] == a && [a, b][1] == b;
  }
}
