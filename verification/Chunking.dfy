/** Sliding-window chunking of the cleaned text, and which chunks a span meets. */
module Chunking {
  import opened Schemas

  datatype Chunk = Chunk(id: string, text: string, start: nat, end: nat)

  /** A validated `ChunkingConfig`, and the content hash that names a chunk of the document. */
  datatype Chunker = Chunker(size: nat, overlap: nat, id: (nat, nat, string) -> string)

  predicate ValidChunker(ck: Chunker) { ck.overlap < ck.size }

  predicate IsChunk(ck: Chunker, text: string, c: Chunk) {
    && c.start < c.end <= |text| && c.end == Min(c.start + ck.size, |text|)
    && c.text == text[c.start..c.end] && c.id == ck.id(c.start, c.end, c.text)
  }

  /** Chunks start at 0 and step by `size - overlap`. */
  ghost predicate Stepping(ck: Chunker, text: string, chunks: seq<Chunk>) {
    && (forall k :: 0 <= k < |chunks| ==> IsChunk(ck, text, chunks[k]))
    && (forall k :: 0 < k < |chunks| ==> chunks[k].start == chunks[k - 1].start + (ck.size - ck.overlap))
    && (chunks != [] ==> chunks[0].start == 0)
  }

  /** ... and stop at the first one to reach the end. */
  ghost predicate Chunked(ck: Chunker, text: string, chunks: seq<Chunk>) {
    && Stepping(ck, text, chunks) && (chunks == [] <==> text == "")
    && (forall k :: 0 <= k < |chunks| ==> (chunks[k].end == |text| <==> k == |chunks| - 1))
  }

  function NextStart(ck: Chunker, chunks: seq<Chunk>): int {
    if chunks == [] then 0 else chunks[|chunks| - 1].start + (ck.size - ck.overlap)
  }

  /** `chunk_document` */
  method ChunkDocument(ck: Chunker, text: string) returns (chunks: seq<Chunk>)
    requires ValidChunker(ck)
    ensures Chunked(ck, text, chunks)
  {
    var step := ck.size - ck.overlap;
    chunks := [];
    var start := 0;
    while start < |text|
      invariant Stepping(ck, text, chunks)
      invariant forall k :: 0 <= k < |chunks| ==> chunks[k].end < |text|
      invariant start == NextStart(ck, chunks) && (chunks != [] ==> start < |text|)
      decreases |text| - start
    {
      var end := Min(start + ck.size, |text|);
      var chunk := Chunk(ck.id(start, end, text[start..end]), text[start..end], start, end);
      assert IsChunk(ck, text, chunk);
      SteppingOn(ck, text, chunks, chunk);
      chunks := chunks + [chunk];
      if end == |text| { break; }
      start := start + step;
    }
  }

  lemma SteppingOn(ck: Chunker, text: string, chunks: seq<Chunk>, chunk: Chunk)
    requires Stepping(ck, text, chunks) && IsChunk(ck, text, chunk) && chunk.start == NextStart(ck, chunks)
    ensures Stepping(ck, text, chunks + [chunk])
  {
  }

  // ----- what the chunks guarantee -----

  /** Consecutive chunks share exactly `overlap` characters. */
  lemma ExactOverlap(ck: Chunker, text: string, chunks: seq<Chunk>, k: nat)
    requires ValidChunker(ck) && Chunked(ck, text, chunks) && k + 1 < |chunks|
    ensures chunks[k].end - chunks[k + 1].start == ck.overlap
    ensures |chunks[k].text| == ck.size && |chunks[k + 1].text| > ck.overlap
    ensures chunks[k].text[ck.size - ck.overlap..] == chunks[k + 1].text[..ck.overlap]
  {
    assert IsChunk(ck, text, chunks[k]) && IsChunk(ck, text, chunks[k + 1]);
    var j := k + 1;
    assert chunks[j].start == chunks[j - 1].start + (ck.size - ck.overlap);
  }

  /** Append every later chunk without its first `overlap` characters. */
  function Reassemble(chunks: seq<Chunk>, overlap: nat): string {
    if chunks == [] then ""
    else if |chunks| == 1 then chunks[0].text
    else
      var last := chunks[|chunks| - 1].text;
      Reassemble(chunks[..|chunks| - 1], overlap) + (if overlap <= |last| then last[overlap..] else "")
  }

  lemma {:induction false} ReassemblePrefix(ck: Chunker, text: string, chunks: seq<Chunk>, n: nat)
    requires ValidChunker(ck) && Chunked(ck, text, chunks) && 0 < n <= |chunks|
    ensures chunks[n - 1].end <= |text| && Reassemble(chunks[..n], ck.overlap) == text[..chunks[n - 1].end]
  {
    assert IsChunk(ck, text, chunks[n - 1]);
    if n > 1 {
      ReassemblePrefix(ck, text, chunks, n - 1);
      ExactOverlap(ck, text, chunks, n - 2);
      assert IsChunk(ck, text, chunks[n - 2]);
      assert chunks[..n][..n - 1] == chunks[..n - 1];
      assert text[..chunks[n - 2].end] + text[chunks[n - 2].end..chunks[n - 1].end] == text[..chunks[n - 1].end];
    }
  }

  /** Nothing of the text is lost or repeated. */
  lemma TextIsRecovered(ck: Chunker, text: string, chunks: seq<Chunk>)
    requires ValidChunker(ck) && Chunked(ck, text, chunks)
    ensures Reassemble(chunks, ck.overlap) == text
  {
    if chunks != [] {
      ReassemblePrefix(ck, text, chunks, |chunks|);
      assert chunks[..|chunks|] == chunks;
    }
  }

  predicate Inside(c: Chunk, a: nat, b: nat) { c.start <= a && b <= c.end }

  ghost predicate InsideSome(chunks: seq<Chunk>, a: nat, length: nat) {
    exists c :: 0 <= c < |chunks| && Inside(chunks[c], a, a + length)
  }

  lemma {:induction false} StartsIncrease(ck: Chunker, text: string, chunks: seq<Chunk>, j: nat, k: nat)
    requires ValidChunker(ck) && Chunked(ck, text, chunks) && j <= k < |chunks|
    ensures chunks[j].start <= chunks[k].start && chunks[j].end <= chunks[k].end
  {
    assert IsChunk(ck, text, chunks[j]) && IsChunk(ck, text, chunks[k]);
    if j < k {
      StartsIncrease(ck, text, chunks, j, k - 1);
      assert IsChunk(ck, text, chunks[k - 1]);
    }
  }

  /** The first chunk, from `k` on, that reaches position `b`. */
  lemma {:induction false} ChunkReaching(ck: Chunker, text: string, chunks: seq<Chunk>, a: nat, b: nat, k: nat)
    returns (c: nat)
    requires ValidChunker(ck) && Chunked(ck, text, chunks) && k < |chunks|
    requires chunks[k].start <= a < b <= |text| && b - a <= ck.overlap + 1
    ensures c < |chunks| && Inside(chunks[c], a, b)
    decreases |chunks| - k
  {
    assert IsChunk(ck, text, chunks[k]);
    if b <= chunks[k].end {
      c := k;
    } else {
      ExactOverlap(ck, text, chunks, k);
      c := ChunkReaching(ck, text, chunks, a, b, k + 1);
    }
  }

  /** Every span of `length` characters lies whole inside some chunk, exactly
      when it is at most one longer than the overlap or the text is one chunk. */
  lemma SpansFitIff(ck: Chunker, text: string, chunks: seq<Chunk>, length: nat)
    requires ValidChunker(ck) && Chunked(ck, text, chunks) && 1 <= length <= |text|
    ensures (forall a: nat :: a <= |text| - length ==> InsideSome(chunks, a, length))
            <==> length <= ck.overlap + 1 || |text| <= ck.size
  {
    assert IsChunk(ck, text, chunks[0]);
    if |text| <= ck.size {
      forall a: nat | a <= |text| - length ensures InsideSome(chunks, a, length) {
        assert Inside(chunks[0], a, a + length);
      }
    } else if length <= ck.overlap + 1 {
      forall a: nat | a <= |text| - length ensures InsideSome(chunks, a, length) {
        var c := ChunkReaching(ck, text, chunks, a, a + length, 0);
      }
    } else {
      var a := Min(chunks[1].start - 1, |text| - length);
      ExactOverlap(ck, text, chunks, 0);
      forall c | 0 <= c < |chunks| ensures !Inside(chunks[c], a, a + length) {
        if c >= 1 { StartsIncrease(ck, text, chunks, 1, c); }
      }
      assert !InsideSome(chunks, a, length);
    }
  }

  /** Every character of the text is in some chunk. */
  lemma EveryPositionIsChunked(ck: Chunker, text: string, chunks: seq<Chunk>, p: nat) returns (c: nat)
    requires ValidChunker(ck) && Chunked(ck, text, chunks) && p < |text|
    ensures c < |chunks| && chunks[c].start <= p < chunks[c].end
  {
    c := ChunkReaching(ck, text, chunks, p, p + 1, 0);
    assert Inside(chunks[c], p, p + 1);
  }

  // ----- span_overlap.py -----

  predicate Overlaps(c: Chunk, start: nat, end: nat) { c.start < end && start < c.end }

  function ChunksOverlappingSpan(start: nat, end: nat, chunks: seq<Chunk>): set<string> {
    set c | c in chunks && Overlaps(c, start, end) :: c.id
  }

  /** `chunks_overlapping_any_span` */
  method ChunksOverlappingAnySpan(spans: seq<(nat, nat)>, chunks: seq<Chunk>) returns (relevant: set<string>)
    ensures forall id :: id in relevant <==>
      exists k, c :: 0 <= k < |spans| && c in chunks && c.id == id && Overlaps(c, spans[k].0, spans[k].1)
  {
    relevant := {};
    for k := 0 to |spans|
      invariant forall id :: id in relevant <==>
        exists m, c :: 0 <= m < k && c in chunks && c.id == id && Overlaps(c, spans[m].0, spans[m].1)
    {
      var more := ChunksOverlappingSpan(spans[k].0, spans[k].1, chunks);
      assert forall id :: id in more <==> exists c :: c in chunks && c.id == id && Overlaps(c, spans[k].0, spans[k].1);
      relevant := relevant + more;
    }
  }
}
