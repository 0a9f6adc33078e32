/** How windows are numbered, and where paragraph breaks are found. */
module WindowNumbers {
  import opened Schemas
  import opened Segmentation

  // ----- numbers -----

  /** A chapter that is one window keeps its span and has no window number; of
      several windows each has its number and its own span within the chapter. */
  lemma NumberedAre(c: ChapterSpan, bs: seq<(nat, nat)>, k: nat)
    requires k < |Numbered(c, bs)|
    ensures |Numbered(c, bs)| == |bs|
    ensures var w := Numbered(c, bs)[k];
      && w.chapter == c.index
      && (|bs| == 1 ==> w.window == None && w.start == c.start && w.end == c.end)
      && (|bs| > 1 ==> w.window == Some(k) && w.start == c.start + bs[k].0 && w.end == c.start + bs[k].1)
  {
  }

  predicate SameNumber(v: ExtractionWindow, w: ExtractionWindow) { v.chapter == w.chapter && v.window == w.window }

  /** Windows of a chapter carry its number and differ in theirs. */
  ghost predicate OfChapter(ws: seq<ExtractionWindow>, chapter: nat) {
    && (forall k :: 0 <= k < |ws| ==> ws[k].chapter == chapter)
    && (forall j, k :: 0 <= j < k < |ws| ==> ws[j].window != ws[k].window)
  }

  lemma SplitIsNumbered(tk: Tokenizer, text: string, c: ChapterSpan, ws: seq<ExtractionWindow>)
    requires c.start <= c.end <= |text| && IsSplit(tk, text, c, ws)
    ensures OfChapter(ws, c.index)
  {
    hide AreWindows;
    var bs :| AreWindows(tk, text[c.start..c.end], EXTRACTION, bs) && ws == Numbered(c, bs);
    forall k | 0 <= k < |ws| ensures ws[k].chapter == c.index { NumberedAre(c, bs, k); }
    forall j, k | 0 <= j < k < |ws| ensures ws[j].window != ws[k].window {
      NumberedAre(c, bs, j);
      NumberedAre(c, bs, k);
    }
  }

  lemma {:induction false} FlattenedDiffer(parts: seq<seq<ExtractionWindow>>)
    requires forall i :: 0 <= i < |parts| ==> OfChapter(parts[i], i)
    ensures forall k :: 0 <= k < |Flatten(parts)| ==> Flatten(parts)[k].chapter < |parts|
    ensures forall j, k :: 0 <= j < k < |Flatten(parts)| ==> !SameNumber(Flatten(parts)[j], Flatten(parts)[k])
  {
    if parts != [] {
      var n := |parts| - 1;
      FlattenedDiffer(parts[..n]);
      var front, last := Flatten(parts[..n]), parts[n];
      assert Flatten(parts) == front + last;
      forall j, k | 0 <= j < k < |front + last| ensures !SameNumber((front + last)[j], (front + last)[k]) {
        if j >= |front| { assert last[j - |front|].window != last[k - |front|].window; }
      }
    }
  }

  lemma ChaptersAreNumbered(text: string, patterns: seq<string -> seq<nat>>, i: nat)
    requires i < |Chapters(text, patterns)|
    ensures Chapters(text, patterns)[i].index == i
  {
  }

  /** No two windows of a text have the same chapter and window number, so that a
      local name with both of them means one mention. */
  lemma WindowsDiffer(tk: Tokenizer, text: string, patterns: seq<string -> seq<nat>>, ws: seq<ExtractionWindow>,
                      j: nat, k: nat)
    requires Segmented(tk, text, patterns, ws) && j < k < |ws|
    ensures !SameNumber(ws[j], ws[k])
  {
    hide AreWindows, Chapters, Flatten, IsSplit;
    var cs := Chapters(text, patterns);
    if cs != [] {
      var parts :| SplitsOf(tk, text, cs, parts) && ws == Flatten(parts);
      forall i | 0 <= i < |parts| ensures OfChapter(parts[i], i) {
        SplitIsNumbered(tk, text, cs[i], parts[i]);
        ChaptersAreNumbered(text, patterns, i);
      }
      FlattenedDiffer(parts);
    }
  }

  // ----- chapters -----

  /** A chapter starts at every heading and at the beginning of the text, and nowhere else. */
  lemma ChapterStartsIff(text: string, headings: seq<nat>, at: nat)
    requires headings != []
    ensures (exists c :: c in ChaptersOf(text, headings) && c.start == at) <==> at == 0 || at in headings
  {
    var starts, cs := ChapterStarts(headings), ChaptersOf(text, headings);
    if c :| c in cs && c.start == at {
      var k :| 0 <= k < |cs| && cs[k] == c;
      assert starts[k] in starts;
    }
    if at == 0 || at in headings {
      assert at in starts by { StartIsListed(headings, at); }
      var k :| 0 <= k < |starts| && starts[k] == at;
      assert cs[k].start == at;
    }
  }

  lemma StartIsListed(headings: seq<nat>, at: nat)
    requires headings != [] && (at == 0 || at in headings)
    ensures at in ChapterStarts(headings)
  {
    assert headings[0] in headings;
  }

  // ----- paragraph breaks -----

  /** From `i` up to `e`: a line end, blanks or tabs, and a line end. */
  predicate IsBreak(t: string, i: nat, e: nat) {
    && i + 2 <= e <= |t| && t[i] == '\n' && t[e - 1] == '\n'
    && forall k :: i < k < e - 1 ==> BlankAt(t, k)
  }

  predicate BlankAt(t: string, k: int) { 0 <= k < |t| && (t[k] == ' ' || t[k] == '\t') }

  lemma {:induction false} SkipBlanksIs(t: string, i: nat)
    requires i <= |t|
    ensures forall k :: i <= k < SkipBlanks(t, i) ==> BlankAt(t, k)
    ensures !BlankAt(t, SkipBlanks(t, i))
    decreases |t| - i
  {
    if i < |t| && (t[i] == ' ' || t[i] == '\t') { SkipBlanksIs(t, i + 1); }
  }

  lemma MatchEndIff(t: string, i: nat, e: nat)
    requires i < |t| && e > 0
    ensures MatchEnd(t, i) == e <==> IsBreak(t, i, e)
  {
    hide SkipBlanks;
    SkipBlanksIs(t, i + 1);
    var j := SkipBlanks(t, i + 1);
    if IsBreak(t, i, e) {
      assert i < j < e - 1 ==> BlankAt(t, j);
      assert e - 1 < j ==> BlankAt(t, e - 1);
    }
  }

  ghost predicate EndsBreak(t: string, from: nat, e: nat) { exists i: nat :: from <= i && IsBreak(t, i, e) }

  /** One of the ends lies behind `i` and not behind `e`. */
  ghost predicate EndsWithin(ends: seq<nat>, i: nat, e: nat) { exists d :: d in ends && i < d <= e }

  /** Every end listed is the end of a break, and every break ends where one is
      listed or overlaps one listed before it: breaks are taken from the left. */
  lemma {:induction false} BreaksAre(t: string, from: nat)
    requires from <= |t|
    ensures forall e :: e in Breaks(t, from) ==> EndsBreak(t, from, e)
    ensures forall i: nat, e: nat :: from <= i && IsBreak(t, i, e) ==> EndsWithin(Breaks(t, from), i, e)
    decreases |t| - from
  {
    hide MatchEnd, EndsWithin;
    if from < |t| {
      var m := MatchEnd(t, from);
      var rest := if m == 0 then from + 1 else m;
      BreaksAre(t, rest);
      forall e | e in Breaks(t, from) ensures EndsBreak(t, from, e) { ListedEndsBreak(t, from, m, rest, e); }
      forall i: nat, e: nat | from <= i && IsBreak(t, i, e) ensures EndsWithin(Breaks(t, from), i, e) {
        BreakIsCovered(t, from, m, rest, i, e);
      }
    }
  }

  lemma ListedEndsBreak(t: string, from: nat, m: nat, rest: nat, e: nat)
    requires from < |t| && m == MatchEnd(t, from) && rest == (if m == 0 then from + 1 else m) && e in Breaks(t, from)
    requires forall d :: d in Breaks(t, rest) ==> EndsBreak(t, rest, d)
    ensures EndsBreak(t, from, e)
  {
    hide MatchEnd, IsBreak;
    if m > 0 && e == m {
      MatchEndIff(t, from, m);
    } else {
      assert e in Breaks(t, rest);
      var i: nat :| rest <= i && IsBreak(t, i, e);
    }
  }

  lemma BreakIsCovered(t: string, from: nat, m: nat, rest: nat, i: nat, e: nat)
    requires from < |t| && m == MatchEnd(t, from) && rest == if m == 0 then from + 1 else m
    requires from <= i && IsBreak(t, i, e)
    requires rest <= i ==> EndsWithin(Breaks(t, rest), i, e)
    ensures EndsWithin(Breaks(t, from), i, e)
  {
    hide MatchEnd;
    MatchEndIff(t, from, e);
    if rest <= i {
      var d :| d in Breaks(t, rest) && i < d <= e;
      assert d in Breaks(t, from);
    } else {
      MatchEndIff(t, from, m);
      assert m in Breaks(t, from);
      if i > from {
        assert from < i < m - 1 ==> BlankAt(t, i);
        assert i == m - 1;
      }
    }
  }

  // ----- snapping -----

  /** The stretch searched: `4 * tolerance` characters on either side, inside the text. */
  function Lower(approx: nat, tolerance: nat): nat { if approx >= 4 * tolerance then approx - 4 * tolerance else 0 }

  function Upper(text: string, approx: nat, tolerance: nat): nat { Min(|text|, approx + 4 * tolerance) }

  function Apart(a: int, b: int): int { if a <= b then b - a else a - b }

  /** `r` is the first of the ends, counted from `lo`, that no other is nearer to `approx` than. */
  ghost predicate NearestEnd(ends: seq<nat>, lo: nat, approx: nat, r: nat) {
    exists k :: 0 <= k < |ends| && NearestAt(ends, lo, approx, k) && r == lo + ends[k]
  }

  predicate NearestAt(ends: seq<nat>, lo: nat, approx: nat, k: nat)
    requires k < |ends|
  {
    && (forall m :: 0 <= m < |ends| ==> Apart(lo + ends[k], approx) <= Apart(lo + ends[m], approx))
    && forall m :: 0 <= m < k ==> Apart(lo + ends[k], approx) < Apart(lo + ends[m], approx)
  }

  /** The snapped offset is the end of a break found there, no other of them is
      nearer and none before it as near; without a break it is the offset itself. */
  lemma SnapIs(text: string, approx: nat, tolerance: nat, r: nat)
    requires approx <= |text| && IsSnap(text, approx, tolerance, r)
    ensures Lower(approx, tolerance) <= Upper(text, approx, tolerance) <= |text|
    ensures var lo := Lower(approx, tolerance);
      var ends := Breaks(text[lo..Upper(text, approx, tolerance)], 0);
      if ends == [] then r == approx else NearestEnd(ends, lo, approx, r)
  {
    hide Breaks, IsNearest;
    var lo, hi := Lower(approx, tolerance), Upper(text, approx, tolerance);
    assert lo == SearchStart(approx, tolerance) && hi == SearchEnd(text, approx, tolerance);
    var ends, cs := Breaks(text[lo..hi], 0), Candidates(text, approx, tolerance);
    if ends != [] { NearestShifted(ends, lo, cs, approx, r); }
  }

  lemma NearestShifted(ends: seq<nat>, lo: nat, cs: seq<nat>, approx: nat, r: nat)
    requires |cs| == |ends| && (forall m :: 0 <= m < |ends| ==> cs[m] == lo + ends[m]) && IsNearest(cs, approx, r)
    ensures NearestEnd(ends, lo, approx, r)
  {
    var k :| 0 <= k < |cs| && cs[k] == r
      && (forall m :: 0 <= m < |cs| ==> Distance(r, approx) <= Distance(cs[m], approx))
      && (forall m :: 0 <= m < k ==> Distance(r, approx) < Distance(cs[m], approx));
    forall m | 0 <= m < |ends| ensures Apart(lo + ends[m], approx) == Distance(cs[m], approx) { }
    assert NearestAt(ends, lo, approx, k);
  }
}
