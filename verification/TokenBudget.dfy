/** Whether a window holds at most `max_tokens` tokens when it is tokenized by
    itself: the snapped end is checked against the budget, the raw end is not. */
module TokenBudget {
  import opened Segmentation

  /** The text of the tokens from `j` up to `k`. */
  function Run(tk: Tokenizer, text: string, j: nat, k: nat): string {
    Slice(text, CharOffset(tk, text, j), CharOffset(tk, text, k))
  }

  /** Tokenizing a run of consecutive tokens by itself gives no more tokens than it was made of. */
  ghost predicate Stable(tk: Tokenizer) {
    forall text, j: nat, k: nat :: j <= k <= CountTokens(tk, text) ==> CountTokens(tk, Run(tk, text, j, k)) <= k - j
  }

  ghost predicate Within(tk: Tokenizer, text: string, b: Budget, w: (nat, nat)) {
    CountTokens(tk, Slice(text, w.0, w.1)) <= b.maxTokens
  }

  lemma EmptyHasNoTokens(tk: Tokenizer)
    requires Lossless(tk)
    ensures CountTokens(tk, "") == 0
  {
    OffsetsGrow(tk, "", 0, CountTokens(tk, ""));
  }

  /** A window ends at its checked snap or is the run of at most `maxTokens` tokens. */
  lemma WindowIsWithin(tk: Tokenizer, text: string, b: Budget, start: nat, w: (nat, nat))
    requires Lossless(tk) && Stable(tk) && start <= CountTokens(tk, text) && IsWindow(tk, text, b, start, w)
    ensures Within(tk, text, b, w)
  {
    hide CharOffset, Lossless, CountTokens, IsSnap;
    var total := CountTokens(tk, text);
    var end := EndToken(total, start, b);
    OffsetsGrow(tk, text, start, total);
    assert CountTokens(tk, Run(tk, text, start, end)) <= end - start;
  }

  lemma WindowsAreWithin(tk: Tokenizer, text: string, b: Budget, ws: seq<(nat, nat)>, k: nat)
    requires Lossless(tk) && Stable(tk) && ValidBudget(b) && AreWindows(tk, text, b, ws) && k < |ws|
    ensures Within(tk, text, b, ws[k])
  {
    hide Lossless, Stable, IsWindow, CharOffset, StartToken, CountTokens;
    if CountTokens(tk, text) > b.maxTokens {
      WindowStart(tk, text, b, ws, k);
      WindowIsWithin(tk, text, b, StartToken(b, k), ws[k]);
    } else {
      assert Slice(text, 0, |text|) == text;
    }
  }

  /** Without a radius the snap finds nothing. */
  lemma NoSnapWithoutRadius(text: string, approx: nat, r: nat)
    requires approx <= |text| && IsSnap(text, approx, 0, r)
    ensures r == approx
  {
    SnapStaysNear(text, approx, 0, r);
  }

  /** In a budget that steps by one token, window `j` starts at token `j`. */
  lemma WindowOfStep(tk: Tokenizer, text: string, n: nat, ws: seq<(nat, nat)>, j: nat)
    requires AreWindows(tk, text, Budget(n + 1, n, 0), ws) && CountTokens(tk, text) > j + n
    requires CountTokens(tk, text) > n + 1
    ensures j < |ws| && IsWindow(tk, text, Budget(n + 1, n, 0), j, ws[j])
  {
    hide CharOffset, IsWindow, CountTokens;
    var b := Budget(n + 1, n, 0);
    assert StartToken(b, |ws| - 1) == |ws| - 1 && StartToken(b, j) == j;
  }

  lemma WindowIsRun(tk: Tokenizer, text: string, n: nat, w: (nat, nat), j: nat)
    requires Lossless(tk) && j + n < CountTokens(tk, text) && IsWindow(tk, text, Budget(n + 1, n, 0), j, w)
    ensures Slice(text, w.0, w.1) == Run(tk, text, j, j + n + 1)
  {
    hide CharOffset, Lossless, IsSnap, CountTokens, Slice;
    var b, end := Budget(n + 1, n, 0), j + n + 1;
    OffsetsGrow(tk, text, end, CountTokens(tk, text));
    if end < CountTokens(tk, text) {
      var raw := CharOffset(tk, text, end);
      var snapped: nat :| IsSnap(text, raw, 0, snapped) && w.1 == Kept(tk, text, b, w.0, raw, snapped);
      NoSnapWithoutRadius(text, raw, snapped);
    }
  }

  /** Every run of tokens is a window of the budget that steps by one token. */
  lemma RunIsWindow(tk: Tokenizer, text: string, j: nat, k: nat) returns (ws: seq<(nat, nat)>)
    requires Lossless(tk) && j < k <= CountTokens(tk, text)
    ensures AreWindows(tk, text, Budget(k - j, k - j - 1, 0), ws) && j < |ws|
    ensures Slice(text, ws[j].0, ws[j].1) == Run(tk, text, j, k)
  {
    hide CharOffset, Lossless, IsWindow, CountTokens, StartToken, Slice;
    var n := k - j - 1;
    ws := WindowsExist(tk, text, Budget(n + 1, n, 0));
    if CountTokens(tk, text) > n + 1 {
      WindowOfStep(tk, text, n, ws, j);
      WindowIsRun(tk, text, n, ws[j], j);
    } else {
      OffsetsGrow(tk, text, 0, k);
    }
  }

  /** "Each window holds at most `max_tokens` tokens" is true of all texts and
      budgets exactly for the tokenizers that are stable on runs of tokens. */
  lemma WithinBudgetIff(tk: Tokenizer)
    requires Lossless(tk)
    ensures (forall text, b, ws: seq<(nat, nat)>, k: nat ::
               ValidBudget(b) && AreWindows(tk, text, b, ws) && k < |ws| ==> Within(tk, text, b, ws[k]))
            <==> Stable(tk)
  {
    hide Lossless, AreWindows, CharOffset, CountTokens;
    if Stable(tk) {
      forall text, b, ws: seq<(nat, nat)>, k: nat | ValidBudget(b) && AreWindows(tk, text, b, ws) && k < |ws|
        ensures Within(tk, text, b, ws[k])
      {
        WindowsAreWithin(tk, text, b, ws, k);
      }
    } else {
      var text, j: nat, k: nat :| j <= k <= CountTokens(tk, text) && CountTokens(tk, Run(tk, text, j, k)) > k - j;
      EmptyHasNoTokens(tk);
      assert j < k;
      var ws := RunIsWindow(tk, text, j, k);
      assert !Within(tk, text, Budget(k - j, k - j - 1, 0), ws[j]);
    }
  }

  // ----- any budget can be overrun -----

  /** Letters, but the last two letters of one text are a single token. */
  function Pairing(whole: string): Tokenizer {
    Tokenizer(s => if s == whole && |s| >= 2 then Letters(s[..|s| - 2]) + [s[|s| - 2..]] else Letters(s))
  }

  lemma PairingIsLossless(whole: string)
    ensures Lossless(Pairing(whole))
  {
    var tk := Pairing(whole);
    LettersAreLossless();
    forall s ensures Concat(tk.encode(s)) == s && NonEmptyPieces(tk.encode(s)) {
      assert Concat(LETTERS.encode(s)) == s && NonEmptyPieces(LETTERS.encode(s));
      if s == whole && |s| >= 2 {
        var front := s[..|s| - 2];
        assert Concat(LETTERS.encode(front)) == front && NonEmptyPieces(LETTERS.encode(front));
        assert tk.encode(s)[..|tk.encode(s)| - 1] == Letters(front);
      }
    }
  }

  /** The text after its first `step` letters is `n` tokens of the whole text, and `n + 1` by itself. */
  lemma PairingRuns(n: nat, step: nat)
    requires n >= 1 && step >= 1
    ensures var text := Xs(n + step + 1); var tk := Pairing(text);
      && CountTokens(tk, text) == n + step && CharOffset(tk, text, step) == step
      && CountTokens(tk, Slice(text, step, |text|)) == n + 1
  {
    var text := Xs(n + step + 1);
    var tk := Pairing(text);
    assert tk.encode(text)[..step] == Letters(text)[..step];
    LettersConcat(text, step);
    assert Slice(text, step, |text|) == text[step..];
  }

  /** For every budget some lossless tokenizer and some text make a window that is over it. */
  lemma EveryBudgetCanOverrun(b: Budget) returns (tk: Tokenizer, text: string, ws: seq<(nat, nat)>)
    requires ValidBudget(b)
    ensures Lossless(tk) && AreWindows(tk, text, b, ws) && |ws| == 2
    ensures CountTokens(tk, Slice(text, ws[1].0, ws[1].1)) == b.maxTokens + 1
  {
    hide Lossless, CountTokens, CharOffset, Slice, Pairing, Xs, IsWindow;
    var step := b.maxTokens - b.overlap;
    text := Xs(b.maxTokens + step + 1);
    tk := Pairing(text);
    PairingIsLossless(text);
    PairingRuns(b.maxTokens, step);
    ws := WindowsExist(tk, text, b);
    TwoWindows(tk, text, b, ws);
  }

  lemma TwoWindows(tk: Tokenizer, text: string, b: Budget, ws: seq<(nat, nat)>)
    requires ValidBudget(b) && AreWindows(tk, text, b, ws)
    requires CountTokens(tk, text) == b.maxTokens + (b.maxTokens - b.overlap)
    ensures |ws| == 2 && ws[1] == (CharOffset(tk, text, b.maxTokens - b.overlap), |text|)
  {
    hide CountTokens, CharOffset, StartToken, IsSnap;
    StartTokenZero(b);
    StartTokenNext(b, 0);
    assert IsWindow(tk, text, b, StartToken(b, 1), ws[1]);
  }
}
