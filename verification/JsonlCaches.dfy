/** The file-backed completion caches: one JSON record per line, loaded at
    construction and appended on every put; and the clients over them. */
module JsonlCaches {
  import opened Schemas
  import opened Keys
  import opened Caches
  import opened Canon

  // ----- lines -----

  /** The text between newlines; the last piece is what follows the final newline. */
  function Pieces(text: string): (ps: seq<string>)
    ensures ps != []
  {
    if text == "" then [""]
    else
      var ps, c := Pieces(text[..|text| - 1]), text[|text| - 1];
      if c == '\n' then ps + [""] else ps[..|ps| - 1] + [ps[|ps| - 1] + [c]]
  }

  /** What follows the final newline. */
  function Tail(text: string): string { Pieces(text)[|Pieces(text)| - 1] }

  function StripLeft(s: string): string { if s != "" && IsSpace(s[0]) then StripLeft(s[1..]) else s }

  function StripRight(s: string): string { if s != "" && IsSpace(s[|s| - 1]) then StripRight(s[..|s| - 1]) else s }

  function Strip(s: string): string { StripRight(StripLeft(s)) }

  predicate Blank(s: string) { Strip(s) == "" }

  /** `s` added to the last piece. */
  function Extended(ps: seq<string>, s: string): seq<string>
    requires ps != []
  {
    ps[..|ps| - 1] + [ps[|ps| - 1] + s]
  }

  lemma ExtendedTwice(ps: seq<string>, a: string, b: string)
    requires ps != []
    ensures Extended(ps, a) != [] && Extended(Extended(ps, a), b) == Extended(ps, a + b)
  {
    assert (ps[|ps| - 1] + a) + b == ps[|ps| - 1] + (a + b);
    assert Extended(ps, a)[..|ps| - 1] == ps[..|ps| - 1];
  }

  lemma PiecesAppendChar(text: string, c: char)
    requires c != '\n'
    ensures Pieces(text + [c]) == Extended(Pieces(text), [c])
  {
    assert (text + [c])[..|text|] == text;
  }

  lemma {:induction false} PiecesAppend(text: string, more: string)
    requires '\n' !in more
    ensures Pieces(text + more) == Extended(Pieces(text), more)
  {
    if more == "" {
      assert text + more == text && Tail(text) + more == Tail(text);
    } else {
      var front, c := more[..|more| - 1], more[|more| - 1];
      assert more == front + [c] && c in more;
      PiecesAppend(text, front);
      PiecesAppendChar(text + front, c);
      ExtendedTwice(Pieces(text), front, [c]);
      assert text + more == (text + front) + [c];
    }
  }

  lemma LineAppended(text: string, line: string)
    requires '\n' !in line
    ensures Pieces(text + line + "\n") == Pieces(text)[..|Pieces(text)| - 1] + [Tail(text) + line, ""]
  {
    PiecesAppend(text, line);
    var all := text + line + "\n";
    assert all[..|all| - 1] == text + line;
  }

  // ----- records -----

  /** `json.dumps` and `json.loads` of one cache record. */
  datatype Codec<!V> = Codec(encode: (string, V) -> string, decode: string -> Result<(string, V)>)

  predicate Compact(line: string) {
    line != "" && '\n' !in line && !IsSpace(line[0]) && !IsSpace(line[|line| - 1])
  }

  /** Records round-trip and fit on one line; a record cut off before its end is
      none, and neither is a record with another behind it. */
  ghost predicate ValidCodec<V(!new)>(codec: Codec<V>) {
    && (forall k, v :: Compact(codec.encode(k, v)) && codec.decode(codec.encode(k, v)) == Ok((k, v)))
    && (forall k, v, n: nat :: 0 < n < |codec.encode(k, v)| ==> codec.decode(codec.encode(k, v)[..n]).Raised?)
    && (forall x, k, v ::
      !Blank(x) && codec.decode(Strip(x)).Ok? ==> codec.decode(Strip(x + codec.encode(k, v))).Raised?)
  }

  /** The store a file is loaded into, line by line; a line that is no record raises. */
  function Load<V>(codec: Codec<V>, lines: seq<string>): Result<map<string, V>> {
    if lines == [] then Ok(map[])
    else
      var front, line := Load(codec, lines[..|lines| - 1]), Strip(lines[|lines| - 1]);
      if front.Raised? then Raised
      else if line == "" then front
      else var record := codec.decode(line);
        if record.Raised? then Raised else Ok(front.value[record.value.0 := record.value.1])
  }

  function LoadFile<V>(codec: Codec<V>, file: string): Result<map<string, V>> { Load(codec, Pieces(file)) }

  lemma {:induction false} RaisedStaysRaised<V>(codec: Codec<V>, lines: seq<string>, i: nat)
    requires i <= |lines| && Load(codec, lines[..i]).Raised?
    ensures Load(codec, lines).Raised?
    decreases |lines| - i
  {
    if i == |lines| {
      assert lines[..i] == lines;
    } else {
      assert lines[..i + 1][..i] == lines[..i];
      RaisedStaysRaised(codec, lines, i + 1);
    }
  }

  lemma {:induction false} StripBlank(x: string, line: string)
    requires Blank(x) && Compact(line)
    ensures Strip(x + line) == line
  {
    if x == "" {
      assert x + line == line;
    } else {
      BlankIsSpaces(x);
      BlankTail(x);
      StripBlank(x[1..], line);
      assert (x + line)[1..] == x[1..] + line;
    }
  }

  lemma {:induction false} BlankIsSpaces(x: string)
    requires Blank(x)
    ensures forall i :: 0 <= i < |x| ==> IsSpace(x[i])
  {
    LeftOfBlank(x);
    SpacesStripped(x);
  }

  /** Stripping on the left stops at a character that is no space. */
  lemma {:induction false} SpacesStripped(x: string)
    requires StripLeft(x) == ""
    ensures forall i :: 0 <= i < |x| ==> IsSpace(x[i])
  {
    if x != "" { SpacesStripped(x[1..]); }
  }

  lemma {:induction false} LeftOfBlank(x: string)
    requires Blank(x)
    ensures StripLeft(x) == ""
  {
    var s := StripLeft(x);
    LeftStops(x);
    if s != "" { RightKeepsHead(s); }
  }

  lemma {:induction false} LeftStops(x: string)
    ensures StripLeft(x) == "" || !IsSpace(StripLeft(x)[0])
  {
    if x != "" && IsSpace(x[0]) { LeftStops(x[1..]); }
  }

  lemma {:induction false} RightKeepsHead(s: string)
    requires s != "" && !IsSpace(s[0])
    ensures StripRight(s) != ""
  {
    if IsSpace(s[|s| - 1]) { RightKeepsHead(s[..|s| - 1]); }
  }

  lemma BlankTail(x: string)
    requires x != "" && forall i :: 0 <= i < |x| ==> IsSpace(x[i])
    ensures Blank(x[1..]) && IsSpace(x[0])
  {
    SpacesAreBlank(x[1..]);
  }

  lemma {:induction false} SpacesAreBlank(x: string)
    requires forall i :: 0 <= i < |x| ==> IsSpace(x[i])
    ensures Blank(x)
  {
    if x != "" { SpacesAreBlank(x[1..]); }
  }

  lemma LoadFront<V>(codec: Codec<V>, lines: seq<string>, last: string)
    requires Load(codec, lines + [last]).Ok?
    ensures Load(codec, lines).Ok?
    ensures Blank(last) ==> Load(codec, lines + [last]) == Load(codec, lines)
    ensures !Blank(last) ==> codec.decode(Strip(last)).Ok?
  {
    assert (lines + [last])[..|lines|] == lines;
  }

  /** One put: the file still loads, to the store with the new entry, exactly when
      it ended in a complete line before. */
  lemma PutIsDurableIff<V(!new)>(codec: Codec<V>, file: string, store: map<string, V>, key: string, value: V)
    requires ValidCodec(codec) && LoadFile(codec, file) == Ok(store)
    ensures Blank(Tail(file)) <==> LoadFile(codec, file + codec.encode(key, value) + "\n") == Ok(store[key := value])
    ensures Blank(Tail(file)) <==> LoadFile(codec, file + codec.encode(key, value) + "\n").Ok?
    ensures Tail(file + codec.encode(key, value) + "\n") == ""
  {
    hide Strip, Pieces, Load;
    var line, front, tail := codec.encode(key, value), Pieces(file)[..|Pieces(file)| - 1], Tail(file);
    assert Compact(line);
    LineAppended(file, line);
    assert Pieces(file) == front + [tail];
    LoadFront(codec, front, tail);
    NotBlank(tail, line);
    LoadLast(codec, front, tail + line);
    if Blank(tail) { StripBlank(tail, line); }
  }

  /** A put that is cut off after `n` characters: the file loads exactly when all
      of the record was written, and then to the store with the new entry. */
  lemma TornPutLoadsIff<V(!new)>(codec: Codec<V>, file: string, store: map<string, V>, key: string, value: V, n: nat)
    requires ValidCodec(codec) && LoadFile(codec, file) == Ok(store) && Blank(Tail(file))
    requires 0 < n <= |codec.encode(key, value)|
    ensures var torn := file + codec.encode(key, value)[..n];
      LoadFile(codec, torn) == if n == |codec.encode(key, value)| then Ok(store[key := value]) else Raised
  {
    hide Strip, Pieces, Load, IsSpace;
    var line, front, tail := codec.encode(key, value), Pieces(file)[..|Pieces(file)| - 1], Tail(file);
    assert Compact(line);
    var torn := line[..n];
    assert '\n' !in torn;
    PiecesAppend(file, torn);
    assert Pieces(file) == front + [tail];
    LoadFront(codec, front, tail);
    assert Pieces(file + torn) == front + [tail + torn];
    NotBlank(tail, torn);
    LoadOneMore(codec, front, tail + torn);
    if n == |line| {
      assert torn == line;
      StripBlank(tail, line);
    } else {
      var m := StrippedIsPrefix(tail, torn);
      assert torn[..m] == line[..m];
    }
  }

  /** Stripping blank text before a visible character takes it all, and nothing after it but an end. */
  lemma StrippedIsPrefix(x: string, s: string) returns (m: nat)
    requires Blank(x) && s != "" && !IsSpace(s[0])
    ensures 0 < m <= |s| && Strip(x + s) == s[..m]
  {
    hide IsSpace;
    BlankIsSpaces(x);
    LeftTakesSpaces(x, s);
    m := RightTakesEnd(s);
  }

  lemma {:induction false} LeftTakesSpaces(x: string, s: string)
    requires (forall i :: 0 <= i < |x| ==> IsSpace(x[i])) && s != "" && !IsSpace(s[0])
    ensures StripLeft(x + s) == s
  {
    if x == "" {
      assert x + s == s;
    } else {
      LeftTakesSpaces(x[1..], s);
      assert (x + s)[1..] == x[1..] + s;
    }
  }

  lemma {:induction false} RightTakesEnd(s: string) returns (m: nat)
    requires s != "" && !IsSpace(s[0])
    ensures 0 < m <= |s| && StripRight(s) == s[..m]
  {
    m := |s|;
    if IsSpace(s[|s| - 1]) {
      var front := s[..|s| - 1];
      m := RightTakesEnd(front);
      assert front[..m] == s[..m];
    }
  }

  lemma LoadOneMore<V>(codec: Codec<V>, lines: seq<string>, last: string)
    requires Load(codec, lines).Ok? && !Blank(last)
    ensures Load(codec, lines + [last]) ==
      var record := codec.decode(Strip(last));
      if record.Raised? then Raised else Ok(Load(codec, lines).value[record.value.0 := record.value.1])
  {
    assert (lines + [last])[..|lines|] == lines;
  }

  /** A file that holds one record without its newline loads, and the next put spoils it. */
  lemma UnterminatedFileIsSpoiled<V(!new)>(codec: Codec<V>, key: string, value: V, next: string, more: V)
    requires ValidCodec(codec)
    ensures var file := codec.encode(key, value);
      && LoadFile(codec, file) == Ok(map[key := value]) && !Blank(Tail(file))
      && LoadFile(codec, file + codec.encode(next, more) + "\n").Raised?
  {
    hide Strip, Pieces, Load;
    var line := codec.encode(key, value);
    assert Compact(line);
    OneLineFile(codec, line);
    PutIsDurableIff(codec, line, map[key := value], next, more);
  }

  lemma OneLineFile<V>(codec: Codec<V>, line: string)
    requires Compact(line) && codec.decode(line).Ok?
    ensures !Blank(Tail(line))
    ensures LoadFile(codec, line) == Ok(map[codec.decode(line).value.0 := codec.decode(line).value.1])
  {
    hide Strip, IsSpace, Pieces;
    EmptyHasOnePiece();
    PiecesAppend("", line);
    assert "" + line == line;
    assert Pieces(line) == [line];
    assert Blank("") by { EmptyIsBlank(); }
    NotBlank("", line);
    StripBlank("", line);
    assert [line][..0] == [];
    var empty: map<string, V>, record := map[], codec.decode(line).value;
    assert Load(codec, []) == Ok(empty) && empty[record.0 := record.1] == map[record.0 := record.1];
  }

  lemma EmptyHasOnePiece()
    ensures Pieces("") == [""]
  {
  }

  lemma LoadLast<V>(codec: Codec<V>, lines: seq<string>, last: string)
    requires Load(codec, lines).Ok? && !Blank(last)
    ensures Load(codec, lines + [last, ""]) ==
      var record := codec.decode(Strip(last));
      if record.Raised? then Raised else Ok(Load(codec, lines).value[record.value.0 := record.value.1])
  {
    var all := lines + [last, ""];
    assert all[..|all| - 1] == lines + [last] && (lines + [last])[..|lines|] == lines;
    EmptyIsBlank();
  }

  lemma EmptyIsBlank()
    ensures Strip("") == ""
  {
  }

  lemma NotBlank(x: string, line: string)
    requires line != "" && !IsSpace(line[0])
    ensures Strip(x + line) != ""
  {
    BlankMeans(x + line);
    assert (x + line)[|x|] == line[0];
  }

  lemma BlankMeans(x: string)
    ensures Blank(x) ==> forall i :: 0 <= i < |x| ==> IsSpace(x[i])
  {
    if Blank(x) { BlankIsSpaces(x); }
  }

  // ----- the cache -----

  function PutAll<V>(store: map<string, V>, puts: seq<(string, V)>): map<string, V> {
    if puts == [] then store
    else PutAll(store, puts[..|puts| - 1])[puts[|puts| - 1].0 := puts[|puts| - 1].1]
  }

  function Written<V>(codec: Codec<V>, file: string, puts: seq<(string, V)>): string {
    if puts == [] then file
    else Written(codec, file, puts[..|puts| - 1]) + codec.encode(puts[|puts| - 1].0, puts[|puts| - 1].1) + "\n"
  }

  /** Reloading after any number of puts gives the in-memory store of that point, the last put of a key winning. */
  lemma {:induction false} ReloadEqualsStore<V(!new)>(codec: Codec<V>, file: string, store: map<string, V>,
                                                      puts: seq<(string, V)>)
    requires ValidCodec(codec) && LoadFile(codec, file) == Ok(store) && Blank(Tail(file))
    ensures LoadFile(codec, Written(codec, file, puts)) == Ok(PutAll(store, puts))
    ensures Blank(Tail(Written(codec, file, puts)))
  {
    hide ValidCodec, LoadFile, Blank, Tail;
    if puts != [] {
      var front, last := puts[..|puts| - 1], puts[|puts| - 1];
      ReloadEqualsStore(codec, file, store, front);
      PutIsDurableIff(codec, Written(codec, file, front), PutAll(store, front), last.0, last.1);
      assert Blank("") by { EmptyLineIsBlank(); }
    }
  }

  lemma EmptyLineIsBlank()
    ensures Blank("")
  {
  }

  class JsonlCache<V> {
    const codec: Codec<V>
    var store: map<string, V>
    var file: string

    constructor (codec: Codec<V>, file: string, store: map<string, V>)
      ensures this.codec == codec && this.file == file && this.store == store
    {
      this.codec, this.file, this.store := codec, file, store;
    }

    function Get(key: string): (v: Option<V>)
      reads this
    {
      if key in store then Some(store[key]) else None
    }

    /** The store first, then one appended line. */
    method Put(key: string, value: V)
      modifies this
      ensures store == old(store)[key := value]
      ensures file == old(file) + codec.encode(key, value) + "\n"
    {
      store := store[key := value];
      file := file + (codec.encode(key, value) + "\n");
      assert file == old(file) + codec.encode(key, value) + "\n";
    }
  }

  /** `__init__`: load every line, raising on one that is no record. */
  method Open<V>(codec: Codec<V>, file: string) returns (r: Result<JsonlCache<V>>)
    ensures r.Ok? <==> LoadFile(codec, file).Ok?
    ensures r.Ok? ==> fresh(r.value) && r.value.codec == codec && r.value.file == file
    ensures r.Ok? ==> LoadFile(codec, file) == Ok(r.value.store)
  {
    hide Strip, Pieces;
    var lines := Pieces(file);
    var store: map<string, V> := map[];
    for i := 0 to |lines|
      invariant Load(codec, lines[..i]) == Ok(store)
    {
      assert lines[..i + 1][..i] == lines[..i];
      var line := Strip(lines[i]);
      if line != "" {
        var record := codec.decode(line);
        if record.Raised? {
          RaisedStaysRaised(codec, lines, i + 1);
          return Raised;
        }
        store := store[record.value.0 := record.value.1];
      }
    }
    assert lines[..|lines|] == lines;
    var cache := new JsonlCache(codec, file, store);
    return Ok(cache);
  }

  // ----- the caching clients -----

  /** `CachingLLMClient` and `CachingStructuredLLMClient`; the namespace is the
      fingerprint, or the fingerprint and schema version joined by a colon. */
  class CachingClient<V(!new)> {
    const digest: string -> string
    const namespace: string
    const cache: JsonlCache<V>
    const model: string -> Result<V>

    constructor (digest: string -> string, namespace: string, cache: JsonlCache<V>, model: string -> Result<V>)
      ensures this.digest == digest && this.namespace == namespace && this.cache == cache && this.model == model
    {
      this.digest, this.namespace, this.cache, this.model := digest, namespace, cache, model;
    }

    /** A hit asks nothing; a miss asks the model once and is on file before it is returned. */
    method Complete(prompt: string) returns (r: Result<V>)
      modifies cache
      ensures var key := Key(digest, namespace, prompt);
        if key in old(cache.store) then
          && r == Ok(old(cache.store)[key])
          && cache.store == old(cache.store) && cache.file == old(cache.file)
        else
          && r == model(prompt)
          && cache.store == (if r.Ok? then old(cache.store)[key := r.value] else old(cache.store))
          && cache.file == (if r.Ok? then old(cache.file) + cache.codec.encode(key, r.value) + "\n"
            else old(cache.file))
    {
      var key := Key(digest, namespace, prompt);
      var cached := cache.Get(key);
      if cached.Some? { return Ok(cached.value); }
      r := model(prompt);
      if r.Ok? { cache.Put(key, r.value); }
    }
  }

  // ----- when namespaces collide -----

  /** Two namespaces over one cache can answer for each other exactly when one of
      them, with its colon, begins the other. */
  lemma NamespacesCollideIff(digest: string -> string, m: string, n: string)
    requires Injective(digest)
    ensures (exists p, q :: Key(digest, m, p) == Key(digest, n, q)) <==>
      PrefixOf(m + ":", n + ":") || PrefixOf(n + ":", m + ":")
  {
    if p, q :| Key(digest, m, p) == Key(digest, n, q) {
      assert (m + ":") + p == (n + ":") + q;
      if |m| <= |n| { PrefixSplit(m + ":", n + ":", p, q); } else { PrefixSplit(n + ":", m + ":", q, p); }
    }
    if PrefixOf(m + ":", n + ":") { Collision(digest, m, n); }
    if PrefixOf(n + ":", m + ":") { Collision(digest, n, m); }
  }

  lemma Collision(digest: string -> string, m: string, n: string)
    requires PrefixOf(m + ":", n + ":")
    ensures Key(digest, m, (n + ":")[|m| + 1..]) == Key(digest, n, "")
  {
    assert (m + ":") + (n + ":")[|m| + 1..] == n + ":";
    assert n + ":" + "" == n + ":";
  }

  /** Two versions where one holds a colon: one completion answers for the other's prompt. */
  lemma ColonInVersionCollides(digest: string -> string)
    ensures Key(digest, "f:v1", "x:prompt") == Key(digest, "f:v1:x", "prompt")
  {
    assert "f:v1" + ":" + "x:prompt" == "f:v1:x" + ":" + "prompt";
  }

  /** "A different model, parameter or schema version can never read back another's
      completion" holds whenever no version contains a colon. */
  lemma ColonFreeVersionsNeverCollide(digest: string -> string, f: string, v: string, g: string, w: string, p: string,
                                      q: string)
    requires Injective(digest) && NoColon(f) && NoColon(v) && NoColon(g) && NoColon(w)
    requires Key(digest, f + ":" + v, p) == Key(digest, g + ":" + w, q)
    ensures f == g && v == w && p == q
  {
    assert f + ":" + v + ":" + p == f + ":" + (v + ":" + p);
    assert g + ":" + w + ":" + q == g + ":" + (w + ":" + q);
    ColonFreePrefix(f, g, v + ":" + p, w + ":" + q);
    ColonFreePrefix(v, w, p, q);
  }
}
