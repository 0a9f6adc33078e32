/** Splitting the narrative into extraction windows: token budgets, overlaps,
    paragraph snapping and chapters. */
module Segmentation {
  import opened Schemas

  // ----- the tokenizer -----

  /** The encoding, as the text of each token. */
  datatype Tokenizer = Tokenizer(encode: string -> seq<string>)

  function Concat(pieces: seq<string>): string {
    if pieces == [] then "" else Concat(pieces[..|pieces| - 1]) + pieces[|pieces| - 1]
  }

  predicate NonEmptyPieces(pieces: seq<string>) { forall k :: 0 <= k < |pieces| ==> pieces[k] != "" }

  /** The tokens of a text are non-empty pieces that concatenate back to it. */
  ghost predicate Lossless(tk: Tokenizer) {
    forall s :: Concat(tk.encode(s)) == s && NonEmptyPieces(tk.encode(s))
  }

  function CountTokens(tk: Tokenizer, text: string): nat { |tk.encode(text)| }

  /** `_char_offset_for_token_count` */
  function CharOffset(tk: Tokenizer, text: string, tokens: nat): nat {
    var pieces := tk.encode(text);
    |Concat(pieces[..if tokens < |pieces| then tokens else |pieces|])|
  }

  lemma {:induction false} PiecesHaveLength(pieces: seq<string>, j: nat, k: nat)
    requires NonEmptyPieces(pieces) && j <= k <= |pieces|
    ensures |Concat(pieces[..j])| + (k - j) <= |Concat(pieces[..k])|
    decreases k - j
  {
    if j < k {
      PiecesHaveLength(pieces, j, k - 1);
      assert pieces[..k][..k - 1] == pieces[..k - 1];
    }
  }

  lemma OffsetsGrow(tk: Tokenizer, text: string, j: nat, k: nat)
    requires Lossless(tk) && j <= k <= CountTokens(tk, text)
    ensures CharOffset(tk, text, j) + (k - j) <= CharOffset(tk, text, k) <= |text|
    ensures CharOffset(tk, text, CountTokens(tk, text)) == |text| && CharOffset(tk, text, 0) == 0
  {
    var pieces := tk.encode(text);
    assert Concat(pieces) == text && NonEmptyPieces(pieces);
    PiecesHaveLength(pieces, j, k);
    PiecesHaveLength(pieces, k, |pieces|);
    assert pieces[..|pieces|] == pieces;
  }

  // ----- _snap_to_paragraph_break -----

  function SkipBlanks(t: string, i: nat): (j: nat)
    requires i <= |t|
    ensures i <= j <= |t|
    decreases |t| - i
  {
    if i < |t| && (t[i] == ' ' || t[i] == '\t') then SkipBlanks(t, i + 1) else i
  }

  /** End of a match of `\n[ \t]*\n` starting at `i`, or 0 when there is none. */
  function MatchEnd(t: string, i: nat): (e: nat)
    requires i < |t|
    ensures e == 0 || i + 2 <= e <= |t|
  {
    if t[i] != '\n' then 0
    else
      var j := SkipBlanks(t, i + 1);
      if j < |t| && t[j] == '\n' then j + 1 else 0
  }

  /** Ends of the successive non-overlapping matches from `i` on (`re.finditer`). */
  function Breaks(t: string, i: nat): (ends: seq<nat>)
    requires i <= |t|
    ensures forall k :: 0 <= k < |ends| ==> i + 2 <= ends[k] <= |t|
    decreases |t| - i
  {
    if i == |t| then []
    else
      var e := MatchEnd(t, i);
      if e == 0 then Breaks(t, i + 1) else [e] + Breaks(t, e)
  }

  function Distance(a: nat, b: nat): nat { if a < b then b - a else a - b }

  /** `r` is the first of the candidates nearest to `approx`. */
  ghost predicate IsNearest(candidates: seq<nat>, approx: nat, r: nat) {
    exists k :: 0 <= k < |candidates| && candidates[k] == r
      && (forall m :: 0 <= m < |candidates| ==> Distance(r, approx) <= Distance(candidates[m], approx))
      && (forall m :: 0 <= m < k ==> Distance(r, approx) < Distance(candidates[m], approx))
  }

  function SearchStart(approx: nat, tolerance: nat): nat {
    if approx < 4 * tolerance then 0 else approx - 4 * tolerance
  }

  function SearchEnd(text: string, approx: nat, tolerance: nat): nat {
    if approx + 4 * tolerance < |text| then approx + 4 * tolerance else |text|
  }

  function Candidates(text: string, approx: nat, tolerance: nat): seq<nat>
    requires approx <= |text|
  {
    var lo := SearchStart(approx, tolerance);
    var ends := Breaks(text[lo..SearchEnd(text, approx, tolerance)], 0);
    seq(|ends|, k requires 0 <= k < |ends| => lo + ends[k])
  }

  ghost predicate IsSnap(text: string, approx: nat, tolerance: nat, r: nat)
    requires approx <= |text|
  {
    var cs := Candidates(text, approx, tolerance);
    if cs == [] then r == approx else IsNearest(cs, approx, r)
  }

  method SnapToParagraphBreak(text: string, approx: nat, tolerance: nat) returns (r: nat)
    requires approx <= |text|
    ensures IsSnap(text, approx, tolerance, r)
  {
    hide Breaks;
    var candidates := Candidates(text, approx, tolerance);
    var best: Option<(nat, nat)> := None;
    ghost var at := 0;
    for k := 0 to |candidates|
      invariant best.None? <==> k == 0
      invariant best.Some? ==> 0 <= at < k && best.value == (candidates[at], Distance(candidates[at], approx))
      invariant best.Some? ==> forall m :: 0 <= m < k ==> best.value.1 <= Distance(candidates[m], approx)
      invariant best.Some? ==> forall m :: 0 <= m < at ==> best.value.1 < Distance(candidates[m], approx)
    {
      var distance := Distance(candidates[k], approx);
      if best.None? || distance < best.value.1 {
        best, at := Some((candidates[k], distance)), k;
      }
    }
    r := if best.Some? then best.value.0 else approx;
  }

  /** A snapped offset is a break inside the search radius: at least two
      characters past its left edge. */
  lemma SnapStaysNear(text: string, approx: nat, tolerance: nat, r: nat)
    requires approx <= |text| && IsSnap(text, approx, tolerance, r)
    ensures r == approx || SearchStart(approx, tolerance) + 2 <= r <= SearchEnd(text, approx, tolerance)
  {
    hide Breaks;
  }

  // ----- _compute_window_boundaries -----

  datatype Budget = Budget(maxTokens: nat, overlap: nat, tolerance: nat)

  predicate ValidBudget(b: Budget) { b.overlap < b.maxTokens }

  function EndToken(total: nat, start: nat, b: Budget): nat {
    if start + b.maxTokens < total then start + b.maxTokens else total
  }

  /** One window: from its first token to its snapped end, unless the snap breaks the budget. */
  ghost predicate IsWindow(tk: Tokenizer, text: string, b: Budget, start: nat, w: (nat, nat)) {
    var total := CountTokens(tk, text);
    var end := EndToken(total, start, b);
    var raw := CharOffset(tk, text, end);
    && w.0 == CharOffset(tk, text, start)
    && if end == total then w.1 == |text|
       else
         && raw <= |text|
         && exists snapped: nat ::
              IsSnap(text, raw, b.tolerance, snapped) && w.1 == Kept(tk, text, b, w.0, raw, snapped)
  }

  /** The snapped end if the window then fits the budget, otherwise the raw one. */
  function Kept(tk: Tokenizer, text: string, b: Budget, start: nat, raw: nat, snapped: nat): nat {
    if CountTokens(tk, Slice(text, start, snapped)) <= b.maxTokens then snapped else raw
  }

  /** Python's `text[i:j]` for non-negative bounds. */
  function Slice(text: string, i: nat, j: nat): string {
    var hi := if j < |text| then j else |text|;
    if i < hi then text[i..hi] else ""
  }

  /** First token of window `k`: windows step by `maxTokens - overlap`. */
  function StartToken(b: Budget, k: nat): int { k * (b.maxTokens - b.overlap) }

  /** Windows start at token 0, step evenly, and stop at the first to reach the end. */
  ghost predicate AreWindows(tk: Tokenizer, text: string, b: Budget, ws: seq<(nat, nat)>) {
    var total := CountTokens(tk, text);
    if total <= b.maxTokens then ws == [(0, |text|)]
    else
      && ws != []
      && (forall k :: 0 <= k < |ws| ==> StartToken(b, k) >= 0 && IsWindow(tk, text, b, StartToken(b, k), ws[k]))
      && (forall k :: 0 <= k < |ws| ==> (StartToken(b, k) + b.maxTokens >= total <==> k == |ws| - 1))
  }

  lemma StartTokenNext(b: Budget, k: nat)
    requires ValidBudget(b)
    ensures StartToken(b, k + 1) == StartToken(b, k) + (b.maxTokens - b.overlap)
    ensures StartToken(b, k) >= 0
  {
    var step := b.maxTokens - b.overlap;
    assert (k + 1) * step == k * step + step;
    assert k * step >= 0;
  }

  method ComputeWindowBoundaries(tk: Tokenizer, text: string, b: Budget) returns (ws: seq<(nat, nat)>)
    requires Lossless(tk) && ValidBudget(b)
    ensures AreWindows(tk, text, b, ws)
  {
    hide StartToken, CharOffset, IsSnap, IsWindow, Lossless;
    var total := CountTokens(tk, text);
    if total <= b.maxTokens { return [(0, |text|)]; }
    ws := [];
    var cursor, index := 0, 0;
    StartTokenZero(b);
    while cursor < total
      invariant index == |ws| && cursor <= total
      invariant cursor == if index == 0 then 0 else StartToken(b, index - 1) + b.maxTokens
      invariant index > 0 ==> StartToken(b, index) == cursor - b.overlap && cursor < total && cursor > b.overlap
      invariant forall k :: 0 <= k < |ws| ==> StartToken(b, k) >= 0 && IsWindow(tk, text, b, StartToken(b, k), ws[k])
      invariant forall k :: 0 <= k < |ws| ==> StartToken(b, k) + b.maxTokens < total
      decreases total - cursor
    {
      var start := if index == 0 then 0 else if cursor < b.overlap then 0 else cursor - b.overlap;
      assert start == StartToken(b, index);
      var end := EndToken(total, start, b);
      var window := OneWindow(tk, text, b, start, end);
      ws := ws + [window];
      if end >= total { break; }
      StartTokenNext(b, index);
      cursor := end;
      index := index + 1;
    }
  }

  lemma StartTokenZero(b: Budget)
    ensures StartToken(b, 0) == 0
  {
  }

  method OneWindow(tk: Tokenizer, text: string, b: Budget, start: nat, end: nat) returns (w: (nat, nat))
    requires Lossless(tk) && start <= CountTokens(tk, text) && end == EndToken(CountTokens(tk, text), start, b)
    ensures IsWindow(tk, text, b, start, w)
  {
    hide CharOffset, IsSnap, Lossless;
    OffsetsGrow(tk, text, start, CountTokens(tk, text));
    OffsetsGrow(tk, text, end, CountTokens(tk, text));
    var startChar := CharOffset(tk, text, start);
    if end < CountTokens(tk, text) {
      var raw := CharOffset(tk, text, end);
      var snapped := SnapToParagraphBreak(text, raw, b.tolerance);
      if CountTokens(tk, Slice(text, startChar, snapped)) <= b.maxTokens {
        return (startChar, snapped);
      } else {
        return (startChar, raw);
      }
    } else {
      return (startChar, |text|);
    }
  }

  // ----- how many windows, and whether they leave gaps -----

  lemma RoundedUp(x: int, n: int, step: int)
    requires step > 0 && (n - 1) * step < x <= n * step
    ensures (x + step - 1) / step == n
  {
    var q := (x + step - 1) / step;
    assert q * step <= x + step - 1 < q * step + step;
    assert (n - 1) * step == n * step - step;
    assert (q - n) * step == q * step - n * step;
    SmallMultiple(q - n, step);
  }

  lemma SmallMultiple(d: int, step: int)
    requires step > 0 && -step < d * step < step
    ensures d == 0
  {
    if d >= 1 { MonotoneTimes(1, d, step); }
    if d <= -1 { MonotoneTimes(d, -1, step); }
  }

  lemma MonotoneTimes(a: int, c: int, step: int)
    requires a <= c && step > 0
    ensures a * step <= c * step
  {
  }

  /** An over-budget text yields `1 + ceil((total - max) / (max - overlap))` windows. */
  lemma WindowCount(tk: Tokenizer, text: string, b: Budget, ws: seq<(nat, nat)>)
    requires ValidBudget(b) && AreWindows(tk, text, b, ws) && CountTokens(tk, text) > b.maxTokens
    ensures var total, step := CountTokens(tk, text), b.maxTokens - b.overlap;
      |ws| == 1 + (total - b.maxTokens + step - 1) / step
  {
    hide CountTokens, IsWindow, StartToken;
    var total, step, n := CountTokens(tk, text), b.maxTokens - b.overlap, |ws| - 1;
    StartTokenZero(b);
    assert n >= 1;
    StartTokenNext(b, n - 1);
    StartsAre(b, n);
    assert StartToken(b, n - 1) + b.maxTokens < total;
    RoundedUp(total - b.maxTokens, n, step);
  }

  lemma StartsAre(b: Budget, n: nat)
    ensures StartToken(b, n) == n * (b.maxTokens - b.overlap)
    ensures (n - 1) * (b.maxTokens - b.overlap) == n * (b.maxTokens - b.overlap) - (b.maxTokens - b.overlap)
  {
    var step := b.maxTokens - b.overlap;
    assert (n - 1) * step == n * step - step;
  }

  /** Windows cover the text from 0 to its end with no character between two of them. */
  ghost predicate NoGaps(ws: seq<(nat, nat)>, length: nat) {
    && ws != [] && ws[0].0 == 0 && ws[|ws| - 1].1 == length
    && forall k :: 0 < k < |ws| ==> ws[k].0 <= ws[k - 1].1
  }

  /** Any `overlap` consecutive tokens span nearly the search radius. */
  ghost predicate TokensAreLong(tk: Tokenizer, text: string, b: Budget) {
    forall k :: b.overlap <= k <= CountTokens(tk, text) ==>
      4 * b.tolerance <= CharOffset(tk, text, k) - CharOffset(tk, text, k - b.overlap) + 2
  }

  lemma WindowReach(tk: Tokenizer, text: string, b: Budget, start: nat, w: (nat, nat))
    requires IsWindow(tk, text, b, start, w) && start + b.maxTokens < CountTokens(tk, text)
    ensures var raw := CharOffset(tk, text, start + b.maxTokens);
      w.1 <= |text| && (w.1 == raw || raw + 2 <= w.1 + 4 * b.tolerance)
  {
    hide CharOffset, IsSnap, CountTokens;
    var raw := CharOffset(tk, text, start + b.maxTokens);
    var snapped: nat :| IsSnap(text, raw, b.tolerance, snapped) && w.1 == Kept(tk, text, b, w.0, raw, snapped);
    SnapStaysNear(text, raw, b.tolerance, snapped);
  }

  /** Whatever the text, a gap is at most as long as the radius exceeds the overlap. */
  lemma GapsAreShort(tk: Tokenizer, text: string, b: Budget, ws: seq<(nat, nat)>, k: nat)
    requires Lossless(tk) && ValidBudget(b) && AreWindows(tk, text, b, ws)
    requires CountTokens(tk, text) > b.maxTokens && 0 < k < |ws|
    ensures ws[k].0 <= ws[k - 1].1 || ws[k].0 - ws[k - 1].1 <= 4 * b.tolerance - b.overlap - 2
  {
    hide CharOffset, CountTokens, StartToken, Lossless, IsWindow;
    StartTokenNext(b, k - 1);
    WindowStart(tk, text, b, ws, k - 1);
    WindowStart(tk, text, b, ws, k);
    var start := StartToken(b, k - 1);
    var end := start + b.maxTokens;
    WindowReach(tk, text, b, start, ws[k - 1]);
    OffsetsGrow(tk, text, end - b.overlap, end);
    assert StartToken(b, k) == end - b.overlap;
  }

  lemma SeamCloses(tk: Tokenizer, text: string, b: Budget, ws: seq<(nat, nat)>, k: nat)
    requires Lossless(tk) && ValidBudget(b) && AreWindows(tk, text, b, ws) && TokensAreLong(tk, text, b)
    requires CountTokens(tk, text) > b.maxTokens && 0 < k < |ws|
    ensures ws[k].0 <= ws[k - 1].1
  {
    hide CharOffset, IsSnap, CountTokens, StartToken, Lossless, Kept;
    StartTokenNext(b, k - 1);
    var start := StartToken(b, k - 1);
    WindowReach(tk, text, b, start, ws[k - 1]);
    var end := start + b.maxTokens;
    OffsetsGrow(tk, text, end - b.overlap, end);
    assert StartToken(b, k) == end - b.overlap;
    assert IsWindow(tk, text, b, StartToken(b, k), ws[k]);
  }

  /** Windows leave no gap when every overlap is long enough in characters. */
  lemma NoGapsWhenTokensAreLong(tk: Tokenizer, text: string, b: Budget, ws: seq<(nat, nat)>)
    requires Lossless(tk) && ValidBudget(b) && AreWindows(tk, text, b, ws) && TokensAreLong(tk, text, b)
    ensures NoGaps(ws, |text|)
  {
    hide CharOffset, CountTokens, StartToken, Lossless, IsSnap, TokensAreLong;
    if CountTokens(tk, text) > b.maxTokens {
      StartTokenZero(b);
      OffsetsGrow(tk, text, 0, CountTokens(tk, text));
      assert IsWindow(tk, text, b, StartToken(b, 0), ws[0]);
      assert IsWindow(tk, text, b, StartToken(b, |ws| - 1), ws[|ws| - 1]);
      forall k | 0 < k < |ws| ensures ws[k].0 <= ws[k - 1].1 { SeamCloses(tk, text, b, ws, k); }
    }
  }

  lemma WindowStart(tk: Tokenizer, text: string, b: Budget, ws: seq<(nat, nat)>, k: nat)
    requires ValidBudget(b) && AreWindows(tk, text, b, ws) && CountTokens(tk, text) > b.maxTokens && k < |ws|
    ensures var start := StartToken(b, k);
      0 <= start < CountTokens(tk, text) && IsWindow(tk, text, b, start, ws[k])
    ensures ws[k].0 == CharOffset(tk, text, StartToken(b, k))
  {
    hide CharOffset, IsSnap, StartToken, CountTokens;
    if k > 0 { StartTokenNext(b, k - 1); } else { StartTokenZero(b); }
  }

  /** Windows start in order, whatever the budget. */
  lemma {:induction false} WindowsStartInOrder(tk: Tokenizer, text: string, b: Budget, ws: seq<(nat, nat)>, j: nat,
                                               k: nat)
    requires Lossless(tk) && ValidBudget(b) && AreWindows(tk, text, b, ws) && j < k < |ws|
    ensures ws[j].0 < ws[k].0
    decreases k
  {
    hide CharOffset, StartToken, Lossless, CountTokens, IsWindow;
    WindowStart(tk, text, b, ws, k - 1);
    WindowStart(tk, text, b, ws, k);
    StartTokenNext(b, k - 1);
    OffsetsGrow(tk, text, StartToken(b, k - 1), StartToken(b, k));
    if j < k - 1 { WindowsStartInOrder(tk, text, b, ws, j, k - 1); }
  }

  lemma WindowEnd(tk: Tokenizer, text: string, b: Budget, start: nat, w: (nat, nat))
    requires Lossless(tk) && IsWindow(tk, text, b, start, w) && b.maxTokens > 0 && start < CountTokens(tk, text)
    ensures w.1 <= |text|
    ensures start + b.maxTokens >= CountTokens(tk, text) || 4 * b.tolerance <= b.maxTokens + 1 ==> w.0 < w.1
  {
    hide CharOffset, IsSnap, Lossless, CountTokens;
    var total := CountTokens(tk, text);
    if start + b.maxTokens < total {
      WindowReach(tk, text, b, start, w);
      OffsetsGrow(tk, text, start, start + b.maxTokens);
    } else {
      OffsetsGrow(tk, text, start, total);
    }
  }

  /** Windows are non-empty when every overlap is long enough in characters, and
      in every text when the radius exceeds the budget by at most one. */
  lemma WindowsAreProper(tk: Tokenizer, text: string, b: Budget, ws: seq<(nat, nat)>, k: nat)
    requires Lossless(tk) && ValidBudget(b) && AreWindows(tk, text, b, ws) && text != "" && k < |ws|
    requires TokensAreLong(tk, text, b) || 4 * b.tolerance <= b.maxTokens + 1
    ensures ws[k].0 < ws[k].1 <= |text|
  {
    hide CharOffset, StartToken, Lossless, CountTokens, IsWindow, TokensAreLong;
    if CountTokens(tk, text) > b.maxTokens {
      WindowStart(tk, text, b, ws, k);
      WindowEnd(tk, text, b, StartToken(b, k), ws[k]);
      if k < |ws| - 1 && TokensAreLong(tk, text, b) {
        WindowsStartInOrder(tk, text, b, ws, k, k + 1);
        SeamCloses(tk, text, b, ws, k + 1);
      }
    }
  }

  // ----- when the boundaries are gap-free for every text -----

  /** A tokenizer that keeps a paragraph break and the `x` after it in one token. */
  function ToyEncode(s: string): (pieces: seq<string>)
    decreases |s|
  {
    if s == "" then []
    else if |s| >= 3 && s[..3] == "\n\nx" then [s[..3]] + ToyEncode(s[3..])
    else if |s| >= 2 && s[..2] == "\n\n" then [s[..2]] + ToyEncode(s[2..])
    else [s[..1]] + ToyEncode(s[1..])
  }

  lemma {:induction false} ConcatCons(first: string, rest: seq<string>)
    ensures Concat([first] + rest) == first + Concat(rest)
  {
    var all := [first] + rest;
    if rest == [] {
      assert all[..0] == [];
    } else {
      ConcatCons(first, rest[..|rest| - 1]);
      assert all[..|all| - 1] == [first] + rest[..|rest| - 1];
    }
  }

  lemma {:induction false} ToyIsLossless(s: string)
    ensures Concat(ToyEncode(s)) == s && NonEmptyPieces(ToyEncode(s))
    decreases |s|
  {
    if s != "" {
      var n := |ToyEncode(s)[0]|;
      assert ToyEncode(s) == [s[..n]] + ToyEncode(s[n..]);
      ToyIsLossless(s[n..]);
      ConcatCons(s[..n], ToyEncode(s[n..]));
      assert s == s[..n] + s[n..];
    }
  }

  function Xs(n: nat): (s: string)
    ensures |s| == n && forall k :: 0 <= k < n ==> s[k] == 'x'
  {
    seq(n, _ => 'x')
  }

  function Singles(n: nat): (p: seq<string>)
    ensures |p| == n
  {
    seq(n, _ => "x")
  }

  lemma ToyOneX(s: string)
    requires s != "" && s[0] == 'x'
    ensures ToyEncode(s) == ["x"] + ToyEncode(s[1..])
  {
    assert s[..1] == "x";
    assert |s| >= 2 ==> s[..2][0] != "\n\n"[0];
    assert |s| >= 3 ==> s[..3][0] != "\n\nx"[0];
  }

  lemma {:induction false} ToyXs(n: nat, rest: string)
    ensures ToyEncode(Xs(n) + rest) == Singles(n) + ToyEncode(rest)
  {
    hide ToyEncode;
    if n == 0 {
      assert Xs(0) + rest == rest;
    } else {
      ToyXs(n - 1, rest);
      var s := Xs(n) + rest;
      assert s[0] == 'x' && s[1..] == Xs(n - 1) + rest;
      ToyOneX(s);
      assert Singles(n) == ["x"] + Singles(n - 1);
      assert Singles(n) + ToyEncode(rest) == ["x"] + (Singles(n - 1) + ToyEncode(rest));
    }
  }

  lemma ToyBreak(s: string)
    requires |s| >= 3 && s[..3] == "\n\nx"
    ensures ToyEncode(s) == ["\n\nx"] + ToyEncode(s[3..])
  {
  }

  lemma ToyEnds()
    ensures ToyEncode("") == [] && ToyEncode("\n\n") == ["\n\n"]
  {
    assert "\n\n"[..2] == "\n\n" && "\n\n"[2..] == "";
  }

  /** Ordinary text, then one paragraph break, then just over one overlap of ordinary text. */
  function GapText(b: Budget): string
    requires ValidBudget(b)
  {
    Xs(b.maxTokens - b.overlap - 1) + ("\n\nx" + Xs(b.overlap + 1))
  }

  lemma GapTokens(b: Budget)
    requires ValidBudget(b)
    ensures ToyEncode(GapText(b)) == Singles(b.maxTokens - b.overlap - 1) + ["\n\nx"] + Singles(b.overlap + 1)
  {
    hide ToyEncode;
    var a := b.maxTokens - b.overlap - 1;
    var tail := "\n\nx" + Xs(b.overlap + 1);
    ToyXs(a, tail);
    assert tail[..3] == "\n\nx" && tail[3..] == Xs(b.overlap + 1);
    ToyBreak(tail);
    ToyXs(b.overlap + 1, "");
    ToyEnds();
    assert Xs(b.overlap + 1) + "" == Xs(b.overlap + 1);
  }

  lemma {:induction false} ConcatSingles(n: nat)
    ensures |Concat(Singles(n))| == n
  {
    if n != 0 {
      ConcatSingles(n - 1);
      assert Singles(n)[..n - 1] == Singles(n - 1);
    }
  }

  lemma {:induction false} ConcatLength(a: seq<string>, c: seq<string>)
    ensures |Concat(a + c)| == |Concat(a)| + |Concat(c)|
  {
    if c == [] {
      assert a + c == a;
    } else {
      ConcatLength(a, c[..|c| - 1]);
      assert (a + c)[..|a + c| - 1] == a + c[..|c| - 1];
    }
  }

  /** Breaks in text that is ordinary except for one paragraph break at `at`. */
  lemma {:induction false} OneBreak(t: string, at: nat, i: nat)
    requires at + 2 <= |t| && i <= |t| && t[at] == '\n' && t[at + 1] == '\n'
    requires forall k :: 0 <= k < |t| && k != at && k != at + 1 ==> t[k] == 'x'
    requires i <= at || i >= at + 2
    ensures Breaks(t, i) == if i <= at then [at + 2] else []
    decreases |t| - i
  {
    if i < |t| {
      if i == at {
        assert SkipBlanks(t, i + 1) == i + 1;
        assert MatchEnd(t, i) == i + 2;
        OneBreak(t, at, i + 2);
      } else {
        assert MatchEnd(t, i) == 0;
        OneBreak(t, at, i + 1);
      }
    }
  }

  const TOY := Tokenizer(ToyEncode)

  lemma ToyTokenizerIsLossless()
    ensures Lossless(TOY)
  {
    forall s ensures Concat(TOY.encode(s)) == s && NonEmptyPieces(TOY.encode(s)) { ToyIsLossless(s); }
  }

  /** Offsets in the gap text: the break token is three characters long, all others one. */
  lemma GapOffsets(b: Budget)
    requires ValidBudget(b)
    ensures CountTokens(TOY, GapText(b)) == b.maxTokens + 1
    ensures CharOffset(TOY, GapText(b), 0) == 0
    ensures CharOffset(TOY, GapText(b), b.maxTokens - b.overlap) == b.maxTokens - b.overlap + 2
    ensures CharOffset(TOY, GapText(b), b.maxTokens) == b.maxTokens + 2
  {
    hide ToyEncode;
    GapTokens(b);
    var a, o := b.maxTokens - b.overlap - 1, b.overlap;
    var pieces := TOY.encode(GapText(b));
    assert pieces[..a + 1] == Singles(a) + ["\n\nx"];
    assert pieces[..b.maxTokens] == Singles(a) + ["\n\nx"] + Singles(o);
    ConcatSingles(a);
    ConcatSingles(o);
    ConcatLength(Singles(a), ["\n\nx"]);
    ConcatLength(Singles(a) + ["\n\nx"], Singles(o));
    assert Concat(["\n\nx"]) == "\n\nx" by { assert ["\n\nx"][..0] == []; }
  }

  /** The only break within reach of the first window's raw end lies before the second window. */
  lemma GapSnap(b: Budget)
    requires ValidBudget(b) && 4 * b.tolerance >= b.overlap + 3
    ensures IsSnap(GapText(b), b.maxTokens + 2, b.tolerance, b.maxTokens - b.overlap + 1)
  {
    hide Breaks, SkipBlanks, MatchEnd;
    var text, raw, at := GapText(b), b.maxTokens + 2, b.maxTokens - b.overlap - 1;
    var lo, hi := SearchStart(raw, b.tolerance), SearchEnd(text, raw, b.tolerance);
    var t := text[lo..hi];
    OneBreak(t, at - lo, 0);
    assert Candidates(text, raw, b.tolerance) == [at + 2];
  }

  lemma GapFits(b: Budget)
    requires ValidBudget(b)
    ensures CountTokens(TOY, Slice(GapText(b), 0, b.maxTokens - b.overlap + 1)) <= b.maxTokens
  {
    hide ToyEncode;
    var a := b.maxTokens - b.overlap - 1;
    assert GapText(b) == (Xs(a) + "\n\n") + ("x" + Xs(b.overlap + 1));
    assert GapText(b)[0..a + 2] == Xs(a) + "\n\n";
    assert Slice(GapText(b), 0, a + 2) == Xs(a) + "\n\n";
    ToyXs(a, "\n\n");
    ToyEnds();
    assert ToyEncode(Xs(a) + "\n\n") == Singles(a) + ["\n\n"];
  }

  /** With a search radius of three or more above the overlap, some text leaves a gap. */
  lemma GapAppears(b: Budget) returns (ws: seq<(nat, nat)>)
    requires ValidBudget(b) && 4 * b.tolerance >= b.overlap + 3
    ensures Lossless(TOY) && AreWindows(TOY, GapText(b), b, ws) && !NoGaps(ws, |GapText(b)|)
  {
    hide ToyEncode, CharOffset, IsSnap, CountTokens, StartToken, Slice;
    ToyTokenizerIsLossless();
    GapOffsets(b);
    GapSnap(b);
    GapFits(b);
    var text := GapText(b);
    ws := [(0, b.maxTokens - b.overlap + 1), (b.maxTokens - b.overlap + 2, |text|)];
    StartTokenZero(b);
    StartTokenNext(b, 0);
    assert ws[1].0 > ws[0].1;
    assert Kept(TOY, text, b, 0, b.maxTokens + 2, b.maxTokens - b.overlap + 1) == b.maxTokens - b.overlap + 1;
    assert IsWindow(TOY, text, b, 0, ws[0]);
    assert IsWindow(TOY, text, b, b.maxTokens - b.overlap, ws[1]);
  }

  lemma ShortRadiusTokensAreLong(tk: Tokenizer, text: string, b: Budget)
    requires Lossless(tk) && 4 * b.tolerance <= b.overlap + 2
    ensures TokensAreLong(tk, text, b)
  {
    hide CharOffset, Lossless;
    forall k | b.overlap <= k <= CountTokens(tk, text)
      ensures 4 * b.tolerance <= CharOffset(tk, text, k) - CharOffset(tk, text, k - b.overlap) + 2
    {
      OffsetsGrow(tk, text, k - b.overlap, k);
    }
  }

  /** "Boundaries always cover the text with no gaps" holds for every text and
      every lossless tokenizer exactly when the search radius exceeds the overlap
      by at most two. */
  lemma NoGapsIff(b: Budget)
    requires ValidBudget(b)
    ensures (forall tk, text, ws :: Lossless(tk) && AreWindows(tk, text, b, ws) ==> NoGaps(ws, |text|))
            <==> 4 * b.tolerance <= b.overlap + 2
  {
    hide Lossless, AreWindows, NoGaps, TokensAreLong;
    if 4 * b.tolerance <= b.overlap + 2 {
      forall tk, text, ws | Lossless(tk) && AreWindows(tk, text, b, ws) ensures NoGaps(ws, |text|) {
        ShortRadiusTokensAreLong(tk, text, b);
        NoGapsWhenTokensAreLong(tk, text, b, ws);
      }
    } else {
      var ws := GapAppears(b);
    }
  }

  // ----- when the windows are non-empty for every text -----

  /** A tokenizer of single characters. */
  function Letters(s: string): seq<string> { seq(|s|, i requires 0 <= i < |s| => [s[i]]) }

  const LETTERS := Tokenizer(Letters)

  lemma {:induction false} LettersConcat(s: string, n: nat)
    requires n <= |s|
    ensures Concat(Letters(s)[..n]) == s[..n]
  {
    if n != 0 {
      LettersConcat(s, n - 1);
      assert Letters(s)[..n][..n - 1] == Letters(s)[..n - 1];
      assert s[..n] == s[..n - 1] + [s[n - 1]];
    }
  }

  lemma LettersAreLossless()
    ensures Lossless(LETTERS)
  {
    forall s ensures Concat(LETTERS.encode(s)) == s && NonEmptyPieces(LETTERS.encode(s)) {
      LettersConcat(s, |s|);
      assert Letters(s)[..|s|] == Letters(s) && s[..|s|] == s;
    }
  }

  lemma LettersOffset(s: string, n: nat)
    requires n <= |s|
    ensures CharOffset(LETTERS, s, n) == n && CountTokens(LETTERS, s) == |s|
  {
    LettersConcat(s, n);
  }

  lemma {:induction false} NearestExists(cs: seq<nat>, approx: nat) returns (r: nat)
    requires cs != []
    ensures IsNearest(cs, approx, r)
  {
    var front, last := cs[..|cs| - 1], cs[|cs| - 1];
    r := last;
    if front == [] {
      assert cs[0] == last;
    } else {
      var q := NearestExists(front, approx);
      var k :| 0 <= k < |front| && front[k] == q
        && (forall m :: 0 <= m < |front| ==> Distance(q, approx) <= Distance(front[m], approx))
        && (forall m :: 0 <= m < k ==> Distance(q, approx) < Distance(front[m], approx));
      if Distance(q, approx) <= Distance(last, approx) {
        r := q;
        assert cs[k] == q && forall m :: 0 <= m < |cs| - 1 ==> cs[m] == front[m];
      } else {
        assert cs[|cs| - 1] == last && forall m :: 0 <= m < |cs| - 1 ==> cs[m] == front[m];
      }
    }
  }

  lemma WindowExists(tk: Tokenizer, text: string, b: Budget, start: nat) returns (w: (nat, nat))
    requires Lossless(tk) && start <= CountTokens(tk, text)
    ensures IsWindow(tk, text, b, start, w)
  {
    hide CharOffset, Lossless, CountTokens, Candidates, IsNearest;
    var total := CountTokens(tk, text);
    var end := EndToken(total, start, b);
    w := (CharOffset(tk, text, start), |text|);
    if end < total {
      OffsetsGrow(tk, text, end, total);
      var raw := CharOffset(tk, text, end);
      var snapped := raw;
      if Candidates(text, raw, b.tolerance) != [] {
        snapped := NearestExists(Candidates(text, raw, b.tolerance), raw);
      }
      assert IsSnap(text, raw, b.tolerance, snapped);
      w := (w.0, Kept(tk, text, b, w.0, raw, snapped));
    }
  }

  /** The first windows of a text, none of them its last. */
  ghost predicate Begun(tk: Tokenizer, text: string, b: Budget, ws: seq<(nat, nat)>) {
    && (forall j :: 0 <= j < |ws| ==> StartToken(b, j) >= 0 && IsWindow(tk, text, b, StartToken(b, j), ws[j]))
    && (forall j :: 0 <= j < |ws| ==> StartToken(b, j) + b.maxTokens < CountTokens(tk, text))
  }

  lemma {:induction false} WindowsAfter(tk: Tokenizer, text: string, b: Budget, done: seq<(nat, nat)>)
    returns (ws: seq<(nat, nat)>)
    requires Lossless(tk) && ValidBudget(b) && CountTokens(tk, text) > b.maxTokens
    requires Begun(tk, text, b, done) && 0 <= StartToken(b, |done|) <= CountTokens(tk, text)
    ensures AreWindows(tk, text, b, ws)
    decreases CountTokens(tk, text) - StartToken(b, |done|)
  {
    hide StartToken, IsWindow, Lossless, CountTokens;
    var next := WindowExists(tk, text, b, StartToken(b, |done|));
    ws := done + [next];
    if StartToken(b, |done|) + b.maxTokens < CountTokens(tk, text) {
      StartTokenNext(b, |done|);
      ws := WindowsAfter(tk, text, b, ws);
    }
  }

  /** Every text has windows. */
  lemma WindowsExist(tk: Tokenizer, text: string, b: Budget) returns (ws: seq<(nat, nat)>)
    requires Lossless(tk) && ValidBudget(b)
    ensures AreWindows(tk, text, b, ws)
  {
    hide StartToken, IsWindow, Lossless, CountTokens;
    ws := [(0, |text|)];
    if CountTokens(tk, text) > b.maxTokens {
      StartTokenZero(b);
      ws := WindowsAfter(tk, text, b, []);
    }
  }

  /** The second window of a step of two or more, otherwise the third. */
  function Swallowed(b: Budget): nat { if b.maxTokens - b.overlap >= 2 then 1 else 2 }

  /** A paragraph break just before that window, then one character more than the window. */
  function SwallowingText(b: Budget): string
    requires ValidBudget(b)
  {
    Xs(StartToken(b, Swallowed(b)) - 2) + ("\n\n" + Xs(b.maxTokens + 1))
  }

  lemma SwallowedStart(b: Budget)
    requires ValidBudget(b)
    ensures StartToken(b, Swallowed(b)) >= 2
    ensures |SwallowingText(b)| == StartToken(b, Swallowed(b)) + b.maxTokens + 1
  {
    StartTokenZero(b);
    StartTokenNext(b, 0);
    StartTokenNext(b, 1);
  }

  lemma SwallowingSnap(b: Budget, start: nat, snapped: nat)
    requires ValidBudget(b) && 4 * b.tolerance >= b.maxTokens + 2 && start == StartToken(b, Swallowed(b))
    requires start + b.maxTokens <= |SwallowingText(b)|
    requires IsSnap(SwallowingText(b), start + b.maxTokens, b.tolerance, snapped)
    ensures snapped == start
  {
    hide Breaks, SkipBlanks, MatchEnd, StartToken;
    SwallowedStart(b);
    var text, raw, at := SwallowingText(b), start + b.maxTokens, start - 2;
    var lo, hi := SearchStart(raw, b.tolerance), SearchEnd(text, raw, b.tolerance);
    var t := text[lo..hi];
    OneBreak(t, at - lo, 0);
    assert Candidates(text, raw, b.tolerance) == [at + 2];
  }

  /** With a radius of two or more above the budget, some window holds no character. */
  lemma WindowIsSwallowed(b: Budget, ws: seq<(nat, nat)>)
    requires ValidBudget(b) && 4 * b.tolerance >= b.maxTokens + 2 && AreWindows(LETTERS, SwallowingText(b), b, ws)
    ensures Swallowed(b) < |ws| && ws[Swallowed(b)].0 == ws[Swallowed(b)].1
  {
    hide StartToken, IsSnap, SwallowingText, CharOffset;
    SwallowedStart(b);
    var text, k := SwallowingText(b), Swallowed(b);
    var start := StartToken(b, k);
    LettersOffset(text, start);
    LettersOffset(text, start + b.maxTokens);
    SwallowedIsListed(b, ws);
    WindowStart(LETTERS, text, b, ws, k);
    var raw := CharOffset(LETTERS, text, start + b.maxTokens);
    var snapped: nat :| IsSnap(text, raw, b.tolerance, snapped)
      && ws[k].1 == Kept(LETTERS, text, b, ws[k].0, raw, snapped);
    SwallowingSnap(b, start, snapped);
    assert Slice(text, start, start) == "" && Letters("") == [];
  }

  lemma SwallowedIsListed(b: Budget, ws: seq<(nat, nat)>)
    requires ValidBudget(b) && AreWindows(LETTERS, SwallowingText(b), b, ws)
    ensures Swallowed(b) < |ws|
  {
    hide StartToken, IsWindow, SwallowingText;
    SwallowedStart(b);
    var text, n := SwallowingText(b), |ws|;
    LettersOffset(text, 0);
    StartTokenZero(b);
    StartTokenNext(b, 0);
    StartTokenNext(b, 1);
    assert StartToken(b, n - 1) + b.maxTokens >= |text|;
  }

  /** Every window of every non-empty text holds a character exactly when the
      search radius exceeds the budget by at most one. */
  lemma NonEmptyIff(b: Budget)
    requires ValidBudget(b)
    ensures (forall tk, text, ws: seq<(nat, nat)>, k: nat ::
               Lossless(tk) && text != "" && AreWindows(tk, text, b, ws) && k < |ws| ==> ws[k].0 < ws[k].1)
            <==> 4 * b.tolerance <= b.maxTokens + 1
  {
    hide Lossless, AreWindows, SwallowingText, StartToken;
    if 4 * b.tolerance <= b.maxTokens + 1 {
      forall tk, text, ws: seq<(nat, nat)>, k: nat | Lossless(tk) && text != "" && AreWindows(tk, text, b, ws)
        && k < |ws|
        ensures ws[k].0 < ws[k].1
      {
        WindowsAreProper(tk, text, b, ws, k);
      }
    } else {
      LettersAreLossless();
      SwallowedStart(b);
      var ws := WindowsExist(LETTERS, SwallowingText(b), b);
      WindowIsSwallowed(b, ws);
    }
  }

  // ----- the shipped budgets -----

  const EXTRACTION := Budget(6000, 600, 200)
  const FALLBACK := Budget(4000, 600, 200)

  /** The shipped budgets are on the wrong side of that condition. */
  lemma ShippedBudgetsCanLeaveGaps(b: Budget)
    requires b == EXTRACTION || b == FALLBACK
    ensures exists text, ws :: Lossless(TOY) && AreWindows(TOY, text, b, ws) && !NoGaps(ws, |text|)
  {
    hide Lossless, AreWindows, NoGaps, GapText;
    var ws := GapAppears(b);
  }

  // ----- chapters -----

  datatype ChapterSpan = ChapterSpan(index: nat, start: nat, end: nat)

  datatype ExtractionWindow = ExtractionWindow(chapter: nat, window: Option<nat>, start: nat, end: nat)

  const MIN_CHAPTERS := 3

  /** Where one heading pattern matches: successive positions of the text. */
  ghost predicate AreHeadings(text: string, starts: seq<nat>) {
    && (forall k :: 0 <= k < |starts| ==> starts[k] < |text|)
    && (forall j, k :: 0 <= j < k < |starts| ==> starts[j] < starts[k])
  }

  /** Chapter starts: the headings, after a preamble when text precedes the first. */
  function ChapterStarts(headings: seq<nat>): (starts: seq<nat>)
    requires headings != []
  {
    if headings[0] > 0 then [0] + headings else headings
  }

  /** Each chapter runs to the start of the next one. */
  function ChaptersOf(text: string, headings: seq<nat>): seq<ChapterSpan>
    requires headings != []
  {
    var starts := ChapterStarts(headings);
    seq(|starts|, k requires 0 <= k < |starts| =>
      ChapterSpan(k, starts[k], if k < |starts| - 1 then starts[k + 1] else |text|))
  }

  method BuildChapterSpans(text: string, headings: seq<nat>) returns (spans: seq<ChapterSpan>)
    requires headings != []
    ensures spans == ChaptersOf(text, headings)
  {
    spans := [];
    var index := 0;
    if headings[0] > 0 {
      spans := [ChapterSpan(index, 0, headings[0])];
      index := 1;
    }
    ghost var preamble := index;
    for i := 0 to |headings|
      invariant index == preamble + i && |spans| == index
      invariant spans == ChaptersOf(text, headings)[..index]
    {
      var end := if i < |headings| - 1 then headings[i + 1] else |text|;
      spans := spans + [ChapterSpan(index, headings[i], end)];
      index := index + 1;
    }
  }

  /** Chapters are numbered in order and partition the text into non-empty spans. */
  lemma ChaptersPartition(text: string, headings: seq<nat>, k: nat)
    requires headings != [] && AreHeadings(text, headings) && k < |ChaptersOf(text, headings)|
    ensures var cs := ChaptersOf(text, headings);
      && cs[0].start == 0 && cs[|cs| - 1].end == |text|
      && cs[k].index == k && cs[k].start < cs[k].end <= |text|
      && (k > 0 ==> cs[k - 1].end == cs[k].start)
  {
  }

  /** Priority among the patterns: the first with enough headings. */
  function Qualifying(text: string, patterns: seq<string -> seq<nat>>, from: nat): (p: Option<nat>)
    requires from <= |patterns|
    ensures p.None? ==> forall k :: from <= k < |patterns| ==> |patterns[k](text)| < MIN_CHAPTERS
    ensures p.Some? ==> from <= p.value < |patterns| && |patterns[p.value](text)| >= MIN_CHAPTERS
    ensures p.Some? ==> forall k :: from <= k < p.value ==> |patterns[k](text)| < MIN_CHAPTERS
    decreases |patterns| - from
  {
    if from == |patterns| then None
    else if |patterns[from](text)| >= MIN_CHAPTERS then Some(from)
    else Qualifying(text, patterns, from + 1)
  }

  function Chapters(text: string, patterns: seq<string -> seq<nat>>): seq<ChapterSpan> {
    var p := Qualifying(text, patterns, 0);
    if p.None? then [] else ChaptersOf(text, patterns[p.value](text))
  }

  method DetectChapters(text: string, patterns: seq<string -> seq<nat>>) returns (spans: seq<ChapterSpan>)
    ensures spans == Chapters(text, patterns)
  {
    for i := 0 to |patterns|
      invariant Qualifying(text, patterns, 0) == Qualifying(text, patterns, i)
    {
      var headings := patterns[i](text);
      if |headings| >= MIN_CHAPTERS {
        spans := BuildChapterSpans(text, headings);
        return;
      }
    }
    spans := [];
  }

  // ----- extraction windows -----

  /** The windows of one chapter: itself, or its numbered parts. */
  function Numbered(c: ChapterSpan, boundaries: seq<(nat, nat)>): seq<ExtractionWindow> {
    if |boundaries| == 1 then [ExtractionWindow(c.index, None, c.start, c.end)] else
      seq(|boundaries|, k requires 0 <= k < |boundaries| =>
        ExtractionWindow(c.index, Some(k), c.start + boundaries[k].0, c.start + boundaries[k].1))
  }

  /** A window of no characters cannot be constructed. */
  predicate Constructible(ws: seq<ExtractionWindow>) {
    forall k :: 0 <= k < |ws| ==> ws[k].start < ws[k].end
  }

  function Validated(ws: seq<ExtractionWindow>): Result<seq<ExtractionWindow>> {
    if Constructible(ws) then Ok(ws) else Raised
  }

  ghost predicate IsSplit(tk: Tokenizer, text: string, c: ChapterSpan, ws: seq<ExtractionWindow>)
    requires c.start <= c.end <= |text|
  {
    exists bs :: AreWindows(tk, text[c.start..c.end], EXTRACTION, bs) && ws == Numbered(c, bs)
  }

  method SplitChapterIfNeeded(tk: Tokenizer, text: string, c: ChapterSpan) returns (r: Result<seq<ExtractionWindow>>)
    requires Lossless(tk) && c.start <= c.end <= |text|
    ensures exists ws :: IsSplit(tk, text, c, ws) && r == Validated(ws)
  {
    hide AreWindows, Lossless, Constructible;
    var boundaries := ComputeWindowBoundaries(tk, text[c.start..c.end], EXTRACTION);
    var windows := Numbered(c, boundaries);
    assert IsSplit(tk, text, c, windows);
    r := Validated(windows);
  }

  function FallbackNumbered(boundaries: seq<(nat, nat)>): seq<ExtractionWindow> {
    seq(|boundaries|, k requires 0 <= k < |boundaries| =>
      ExtractionWindow(k, None, boundaries[k].0, boundaries[k].1))
  }

  method FallbackFixedWindows(tk: Tokenizer, text: string) returns (r: Result<seq<ExtractionWindow>>)
    requires Lossless(tk)
    ensures exists bs :: AreWindows(tk, text, FALLBACK, bs) && r == Validated(FallbackNumbered(bs))
  {
    hide AreWindows, Lossless, Constructible, FallbackNumbered;
    var boundaries := ComputeWindowBoundaries(tk, text, FALLBACK);
    r := Validated(FallbackNumbered(boundaries));
  }

  /** Non-empty windows inside `[lo, hi)` whose starts increase. */
  ghost predicate InOrder(ws: seq<ExtractionWindow>, lo: nat, hi: nat) {
    && (forall k :: 0 <= k < |ws| ==> lo <= ws[k].start < ws[k].end <= hi)
    && (forall j, k :: 0 <= j < k < |ws| ==> ws[j].start < ws[k].start)
  }

  /** Windows that cover `[lo, hi)` end to end. */
  ghost predicate Covers(ws: seq<ExtractionWindow>, lo: nat, hi: nat) {
    if ws == [] then lo == hi
    else
      && ws[0].start == lo && ws[|ws| - 1].end == hi
      && forall k :: 0 < k < |ws| ==> ws[k].start <= ws[k - 1].end
  }

  /** Covering windows leave no position out. */
  lemma {:induction false} CoversEveryPosition(ws: seq<ExtractionWindow>, lo: nat, hi: nat, p: nat) returns (k: nat)
    requires Covers(ws, lo, hi) && lo <= p < hi
    ensures k < |ws| && ws[k].start <= p < ws[k].end
  {
    k := |ws| - 1;
    while p < ws[k].start
      invariant k < |ws| && p < ws[k].end
      decreases k
    {
      k := k - 1;
    }
  }

  lemma OrderAppend(a: seq<ExtractionWindow>, c: seq<ExtractionWindow>, lo: nat, mid: nat, hi: nat)
    requires lo <= mid <= hi && InOrder(a, lo, mid) && InOrder(c, mid, hi)
    ensures InOrder(a + c, lo, hi)
  {
    forall j, k | 0 <= j < k < |a + c| ensures (a + c)[j].start < (a + c)[k].start {
      if j < |a| <= k { assert (a + c)[j].end <= mid <= (a + c)[k].start; }
    }
  }

  lemma CoverAppend(a: seq<ExtractionWindow>, c: seq<ExtractionWindow>, lo: nat, mid: nat, hi: nat)
    requires Covers(a, lo, mid) && Covers(c, mid, hi)
    ensures Covers(a + c, lo, hi)
  {
  }

  /** Boundaries moved to a chapter's place: in order, and covering it when they leave no gap. */
  lemma ChapterIsOrdered(tk: Tokenizer, text: string, c: ChapterSpan, ws: seq<ExtractionWindow>)
    requires Lossless(tk) && c.start < c.end <= |text| && IsSplit(tk, text, c, ws)
    ensures InOrder(ws, c.start, c.end) && Constructible(ws)
    ensures TokensAreLong(tk, text[c.start..c.end], EXTRACTION) ==> Covers(ws, c.start, c.end)
  {
    hide AreWindows, Lossless, TokensAreLong;
    var part := text[c.start..c.end];
    var bs :| AreWindows(tk, part, EXTRACTION, bs) && ws == Numbered(c, bs);
    BoundariesAreOrdered(tk, part, EXTRACTION, bs);
    if TokensAreLong(tk, part, EXTRACTION) { NoGapsWhenTokensAreLong(tk, part, EXTRACTION, bs); }
  }

  lemma BoundariesAreOrdered(tk: Tokenizer, text: string, b: Budget, bs: seq<(nat, nat)>)
    requires Lossless(tk) && ValidBudget(b) && AreWindows(tk, text, b, bs) && text != ""
    requires 4 * b.tolerance <= b.maxTokens + 1
    ensures forall k :: 0 <= k < |bs| ==> bs[k].0 < bs[k].1 <= |text|
    ensures forall j, k :: 0 <= j < k < |bs| ==> bs[j].0 < bs[k].0
  {
    hide AreWindows, Lossless;
    forall k | 0 <= k < |bs| ensures bs[k].0 < bs[k].1 <= |text| { WindowsAreProper(tk, text, b, bs, k); }
    forall j, k | 0 <= j < k < |bs| ensures bs[j].0 < bs[k].0 { WindowsStartInOrder(tk, text, b, bs, j, k); }
  }

  /** The spans cut into windows: the chapters, or the whole text when none are found. */
  ghost predicate LongEverywhere(tk: Tokenizer, text: string, patterns: seq<string -> seq<nat>>) {
    var cs := Chapters(text, patterns);
    if cs == [] then TokensAreLong(tk, text, FALLBACK)
    else forall c :: c in cs && c.start <= c.end <= |text| ==> TokensAreLong(tk, text[c.start..c.end], EXTRACTION)
  }

  function Flatten(parts: seq<seq<ExtractionWindow>>): seq<ExtractionWindow> {
    if parts == [] then [] else Flatten(parts[..|parts| - 1]) + parts[|parts| - 1]
  }

  /** Each part holds the windows of its own chapter. */
  ghost predicate SplitsOf(tk: Tokenizer, text: string, cs: seq<ChapterSpan>, parts: seq<seq<ExtractionWindow>>) {
    && |parts| == |cs|
    && forall i :: 0 <= i < |cs| ==> cs[i].start <= cs[i].end <= |text| && IsSplit(tk, text, cs[i], parts[i])
  }

  /** The windows of a text: those of its chapters, one chapter after the other,
      or without chapters the fallback windows, each numbered as a chapter. */
  ghost predicate Segmented(tk: Tokenizer, text: string, patterns: seq<string -> seq<nat>>, ws: seq<ExtractionWindow>) {
    var cs := Chapters(text, patterns);
    if cs == [] then exists bs :: AreWindows(tk, text, FALLBACK, bs) && ws == FallbackNumbered(bs)
    else exists parts :: SplitsOf(tk, text, cs, parts) && ws == Flatten(parts)
  }

  /** Only empty text raises. The windows are those of the chapters, or the fallback
      ones; they are non-empty and ordered by start, and cover the whole text when
      tokens are long in every span cut. */
  method SegmentIntoExtractionWindows(tk: Tokenizer, text: string, patterns: seq<string -> seq<nat>>)
      returns (r: Result<seq<ExtractionWindow>>)
    requires Lossless(tk) && forall p :: p in patterns ==> AreHeadings(text, p(text))
    ensures r.Raised? <==> text == ""
    ensures r.Ok? ==> Segmented(tk, text, patterns, r.value)
    ensures r.Ok? ==> InOrder(r.value, 0, |text|)
    ensures r.Ok? && LongEverywhere(tk, text, patterns) ==> Covers(r.value, 0, |text|)
  {
    hide AreWindows, Lossless, TokensAreLong, InOrder, Covers, AreHeadings, ChaptersOf, LongEverywhere, IsSplit,
         FallbackNumbered;
    if text == "" { return Raised; }
    var chapters := DetectChapters(text, patterns);
    if chapters == [] {
      r := FallbackFixedWindows(tk, text);
      FallbackIsOrdered(tk, text, patterns, r);
      return;
    }
    var windows: seq<ExtractionWindow> := [];
    ghost var parts: seq<seq<ExtractionWindow>> := [];
    ghost var headings := patterns[Qualifying(text, patterns, 0).value](text);
    NothingCoversNothing();
    ChapterFits(text, headings, 0);
    for i := 0 to |chapters|
      invariant SplitsOf(tk, text, chapters[..i], parts) && windows == Flatten(parts)
      invariant InOrder(windows, 0, Reached(text, chapters, i))
      invariant LongEverywhere(tk, text, patterns) ==> Covers(windows, 0, Reached(text, chapters, i))
    {
      ChapterFits(text, headings, i);
      var c := chapters[i];
      var part := SplitChapterIfNeeded(tk, text, c);
      ghost var ws :| IsSplit(tk, text, c, ws) && part == Validated(ws);
      ChapterIsOrdered(tk, text, c, ws);
      if LongEverywhere(tk, text, patterns) {
        LongHere(tk, text, patterns, c);
        CoverAppend(windows, part.value, 0, c.start, c.end);
      }
      OrderAppend(windows, part.value, 0, c.start, c.end);
      windows := windows + part.value;
      assert (parts + [ws])[..|parts|] == parts;
      parts := parts + [ws];
    }
    assert chapters[..|chapters|] == chapters;
    r := Ok(windows);
  }

  /** How much of the text the first `i` chapters take. */
  ghost function Reached(text: string, chapters: seq<ChapterSpan>, i: nat): nat {
    if i < |chapters| then chapters[i].start else |text|
  }

  lemma NothingCoversNothing()
    ensures InOrder([], 0, 0) && Covers([], 0, 0)
  {
  }

  lemma ChapterFits(text: string, headings: seq<nat>, i: nat)
    requires headings != [] && AreHeadings(text, headings) && i < |ChaptersOf(text, headings)|
    ensures var cs := ChaptersOf(text, headings);
      cs[0].start == 0 && cs[i].start < cs[i].end <= |text| && cs[i].end == Reached(text, cs, i + 1)
  {
    hide ChaptersOf, AreHeadings;
    var cs := ChaptersOf(text, headings);
    ChaptersPartition(text, headings, i);
    if i < |cs| - 1 { ChaptersPartition(text, headings, i + 1); }
  }

  lemma LongHere(tk: Tokenizer, text: string, patterns: seq<string -> seq<nat>>, c: ChapterSpan)
    requires LongEverywhere(tk, text, patterns) && c in Chapters(text, patterns) && c.start <= c.end <= |text|
    ensures TokensAreLong(tk, text[c.start..c.end], EXTRACTION)
  {
  }

  lemma FallbackIsOrdered(tk: Tokenizer, text: string, patterns: seq<string -> seq<nat>>,
                          r: Result<seq<ExtractionWindow>>)
    requires Lossless(tk) && text != "" && Chapters(text, patterns) == []
    requires exists bs :: AreWindows(tk, text, FALLBACK, bs) && r == Validated(FallbackNumbered(bs))
    ensures r.Ok? && Segmented(tk, text, patterns, r.value) && InOrder(r.value, 0, |text|)
    ensures LongEverywhere(tk, text, patterns) ==> Covers(r.value, 0, |text|)
  {
    hide AreWindows, Lossless, TokensAreLong, Chapters;
    var bs :| AreWindows(tk, text, FALLBACK, bs) && r == Validated(FallbackNumbered(bs));
    BoundariesAreOrdered(tk, text, FALLBACK, bs);
    if TokensAreLong(tk, text, FALLBACK) { NoGapsWhenTokensAreLong(tk, text, FALLBACK, bs); }
  }
}
