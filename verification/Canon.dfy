/** Text canonicalization with an offset map back to the raw string: smart
    punctuation to ASCII, whitespace runs to one space, ends stripped. */
module Canon {

  /** Python's `str.isspace` on one character. */
  predicate IsSpace(c: char) {
    || '\U{0009}' <= c <= '\U{000D}' || '\U{001C}' <= c <= '\U{0020}'
    || c == '\U{0085}' || c == '\U{00A0}' || c == '\U{1680}' || '\U{2000}' <= c <= '\U{200A}'
    || c == '\U{2028}' || c == '\U{2029}' || c == '\U{202F}' || c == '\U{205F}' || c == '\U{3000}'
  }

  function MapChar(c: char): (s: string)
    ensures 1 <= |s| <= 3
  {
    if c == '\U{2018}' || c == '\U{2019}' then "'"
    else if c == '\U{201C}' || c == '\U{201D}' then "\""
    else if c == '\U{2013}' || c == '\U{2014}' then "-"
    else if c == '\U{2026}' then "..."
    else [c]
  }

  // ----- what canonicalization means, one raw character at a time -----

  /** A canonical character with the raw index it came from. */
  datatype Glyph = Glyph(ch: char, at: nat)

  function Glyphs(s: string, at: nat): (g: seq<Glyph>)
    ensures |g| == |s| && forall k :: 0 <= k < |g| ==> g[k] == Glyph(s[k], at)
  {
    seq(|s|, k requires 0 <= k < |s| => Glyph(s[k], at))
  }

  /** First index of the whitespace run that ends just before `n`. */
  function RunStart(text: string, n: nat): (r: nat)
    requires n <= |text|
    ensures r <= n && forall k :: r <= k < n ==> IsSpace(text[k])
    ensures r > 0 ==> !IsSpace(text[r - 1])
  {
    if n > 0 && IsSpace(text[n - 1]) then RunStart(text, n - 1) else n
  }

  /** The space before raw character `i`: one, if a run separates it from an earlier word. */
  function Lead(text: string, i: nat): seq<Glyph>
    requires i < |text|
  {
    if 0 < RunStart(text, i) < i then [Glyph(' ', RunStart(text, i))] else []
  }

  /** Whitespace contributes nothing by itself; any other character contributes
      its mapped characters after its leading space. */
  function CanonUpTo(text: string, n: nat): seq<Glyph>
    requires n <= |text|
  {
    if n == 0 then []
    else if IsSpace(text[n - 1]) then CanonUpTo(text, n - 1)
    else CanonUpTo(text, n - 1) + Lead(text, n - 1) + Glyphs(MapChar(text[n - 1]), n - 1)
  }

  function GlyphsOf(text: string): seq<Glyph> { CanonUpTo(text, |text|) }

  function Chars(g: seq<Glyph>): (s: string)
    ensures |s| == |g| && forall k :: 0 <= k < |g| ==> s[k] == g[k].ch
  {
    seq(|g|, k requires 0 <= k < |g| => g[k].ch)
  }

  function CanonText(text: string): string { Chars(GlyphsOf(text)) }

  lemma {:induction false} CanonUpToIsEmpty(text: string, n: nat)
    requires n <= |text|
    ensures CanonUpTo(text, n) == [] <==> RunStart(text, n) == 0
  {
    if n != 0 { CanonUpToIsEmpty(text, n - 1); }
  }

  /** A glyph is a space exactly when it stands for raw whitespace. */
  predicate GoodGlyph(text: string, x: Glyph, n: nat) {
    x.at < n <= |text| && (x.ch == ' ' <==> IsSpace(text[x.at])) && (IsSpace(x.ch) <==> x.ch == ' ')
  }

  /** Offsets never go backwards, and two spaces are never adjacent. */
  predicate Follows(x: Glyph, y: Glyph) {
    x.at <= y.at && (x.ch != ' ' || y.ch != ' ')
  }

  predicate AllGood(text: string, g: seq<Glyph>, n: nat) { forall k :: 0 <= k < |g| ==> GoodGlyph(text, g[k], n) }

  predicate AllFollow(g: seq<Glyph>) { forall k :: 0 < k < |g| ==> Follows(g[k - 1], g[k]) }

  predicate WellPlaced(text: string, g: seq<Glyph>, n: nat) {
    && AllGood(text, g, n) && AllFollow(g)
    && (g != [] ==> g[0].ch != ' ' && g[|g| - 1].ch != ' ')
  }

  lemma GoodConcat(text: string, a: seq<Glyph>, b: seq<Glyph>, n: nat)
    requires AllGood(text, a, n) && AllGood(text, b, n)
    ensures AllGood(text, a + b, n)
  {
    hide GoodGlyph;
  }

  lemma FollowConcat(a: seq<Glyph>, b: seq<Glyph>)
    requires AllFollow(a) && AllFollow(b) && (a != [] && b != [] ==> Follows(a[|a| - 1], b[0]))
    ensures AllFollow(a + b)
  {
    hide Follows;
    var c := a + b;
    forall k | 0 < k < |c| ensures Follows(c[k - 1], c[k]) {
      if k > |a| { assert Follows(b[k - |a| - 1], b[k - |a|]); }
    }
  }

  lemma MappedIsVisible(c: char)
    requires !IsSpace(c)
    ensures forall k :: 0 <= k < |MapChar(c)| ==> !IsSpace(MapChar(c)[k]) && MapChar(MapChar(c)[k]) == [MapChar(c)[k]]
  {
  }

  lemma SpaceIsMapped()
    ensures IsSpace(' ') && MapChar(' ') == " "
  {
  }

  /** A whitespace run contributes nothing until the word after it. */
  lemma {:induction false} RunIsSilent(text: string, n: nat)
    requires n <= |text|
    ensures CanonUpTo(text, n) == CanonUpTo(text, RunStart(text, n))
  {
    hide IsSpace, MapChar;
    if n > 0 && IsSpace(text[n - 1]) { RunIsSilent(text, n - 1); }
  }

  function Separator(g: seq<Glyph>, m: nat, i: nat): seq<Glyph> {
    if g != [] && m < i then [Glyph(' ', m)] else []
  }

  lemma EmitShape(text: string, i: nat)
    requires i < |text| && !IsSpace(text[i])
    ensures var m := RunStart(text, i);
      CanonUpTo(text, i + 1) == CanonUpTo(text, m) + Separator(CanonUpTo(text, m), m, i) + Glyphs(MapChar(text[i]), i)
  {
    RunIsSilent(text, i);
    CanonUpToIsEmpty(text, i);
  }

  lemma GlyphsPlaced(text: string, i: nat, k: nat)
    requires i < |text| && !IsSpace(text[i]) && k < |MapChar(text[i])|
    ensures GoodGlyph(text, Glyphs(MapChar(text[i]), i)[k], i + 1)
    ensures Glyphs(MapChar(text[i]), i)[k].ch != ' '
  {
    MappedIsVisible(text[i]);
  }

  lemma TailPlaced(text: string, i: nat)
    requires i < |text| && !IsSpace(text[i])
    ensures var tail := Glyphs(MapChar(text[i]), i);
      AllGood(text, tail, i + 1) && AllFollow(tail) && tail != [] && tail[0].ch != ' ' && tail[|tail| - 1].ch != ' '
        && tail[0].at == i
  {
    var tail := Glyphs(MapChar(text[i]), i);
    assert tail != [];
    hide MapChar;
    forall k | 0 <= k < |tail| ensures GoodGlyph(text, tail[k], i + 1) && tail[k].ch != ' ' && tail[k].at == i {
      GlyphsPlaced(text, i, k);
    }
  }

  lemma SeparatorPlaced(text: string, g: seq<Glyph>, m: nat, i: nat)
    requires WellPlaced(text, g, m) && m <= i < |text| && (m < i ==> IsSpace(text[m]))
    ensures AllGood(text, g, i + 1) && AllGood(text, Separator(g, m, i), i + 1) && AllFollow(Separator(g, m, i))
    ensures g != [] ==> g[|g| - 1].at < m && g[|g| - 1].ch != ' '
  {
    hide MapChar;
    forall k | 0 <= k < |g| ensures GoodGlyph(text, g[k], i + 1) { assert GoodGlyph(text, g[k], m); }
    SpaceIsMapped();
  }

  lemma AppendPlaced(text: string, g: seq<Glyph>, m: nat, i: nat)
    requires WellPlaced(text, g, m) && m <= i < |text| && !IsSpace(text[i]) && (m < i ==> IsSpace(text[m]))
    ensures WellPlaced(text, g + Separator(g, m, i) + Glyphs(MapChar(text[i]), i), i + 1)
  {
    hide MapChar, AllGood, AllFollow, IsSpace;
    var sep, tail := Separator(g, m, i), Glyphs(MapChar(text[i]), i);
    TailPlaced(text, i);
    SeparatorPlaced(text, g, m, i);
    GoodConcat(text, g, sep, i + 1);
    GoodConcat(text, g + sep, tail, i + 1);
    FollowConcat(g, sep);
    FollowConcat(g + sep, tail);
    var h := g + sep + tail;
    assert h[|h| - 1] == tail[|tail| - 1];
    assert h[0] == if g != [] then g[0] else tail[0];
  }

  lemma {:induction false} CanonWellPlaced(text: string, n: nat)
    requires n <= |text|
    ensures WellPlaced(text, CanonUpTo(text, n), n)
    decreases n
  {
    if n != 0 {
      var i := n - 1;
      var m := RunStart(text, i);
      if IsSpace(text[i]) {
        CanonWellPlaced(text, i);
        forall k | 0 <= k < |CanonUpTo(text, i)| ensures GoodGlyph(text, CanonUpTo(text, i)[k], n) {
          assert GoodGlyph(text, CanonUpTo(text, i)[k], i);
        }
        assert CanonUpTo(text, n) == CanonUpTo(text, i);
      } else {
        CanonWellPlaced(text, m);
        EmitShape(text, i);
        AppendPlaced(text, CanonUpTo(text, m), m, i);
      }
    }
  }

  ghost predicate Written(output: string, at: seq<nat>, g: seq<Glyph>) {
    |at| == |output| == |g| && forall k :: 0 <= k < |g| ==> g[k] == Glyph(output[k], at[k])
  }

  method AppendMapped(output0: string, at0: seq<nat>, mapped: string, i: nat, ghost g: seq<Glyph>)
    returns (output: string, at: seq<nat>)
    requires Written(output0, at0, g)
    ensures Written(output, at, g + Glyphs(mapped, i))
  {
    output, at := output0, at0;
    for j := 0 to |mapped|
      invariant Written(output, at, g + Glyphs(mapped[..j], i))
    {
      output, at := output + [mapped[j]], at + [i];
    }
    assert mapped[..|mapped|] == mapped;
  }

  /** The two trimming loops. */
  method Trim(output: string, at: seq<nat>) returns (canonText: string, offsets: seq<nat>, ghost lo: nat, ghost hi: nat)
    requires |at| == |output|
    ensures lo <= hi <= |output| && canonText == output[lo..hi] && offsets == at[lo..hi]
    ensures forall k :: 0 <= k < lo || hi <= k < |output| ==> output[k] == ' '
    ensures lo < hi ==> output[lo] != ' ' && output[hi - 1] != ' '
  {
    var start, end := 0, |output|;
    while start < end && output[start] == ' '
      invariant 0 <= start <= end && forall k :: 0 <= k < start ==> output[k] == ' '
    {
      start := start + 1;
    }
    while end > start && output[end - 1] == ' '
      invariant start <= end <= |output| && forall k :: end <= k < |output| ==> output[k] == ' '
      decreases end - start
    {
      end := end - 1;
    }
    canonText, offsets, lo, hi := output[start..end], at[start..end], start, end;
  }

  /** `canonicalize_with_offsets`; the trimming loops find nothing to remove. */
  method CanonicalizeWithOffsets(text: string) returns (canonText: string, offsets: seq<nat>)
    ensures canonText == CanonText(text)
    ensures |offsets| == |canonText|
    ensures forall k :: 0 <= k < |offsets| ==> offsets[k] == GlyphsOf(text)[k].at
  {
    hide MapChar, IsSpace;
    var output: string, at: seq<nat>, run: int := [], [], -1;
    for i := 0 to |text|
      invariant Written(output, at, CanonUpTo(text, i))
      invariant run == if RunStart(text, i) == i then -1 else RunStart(text, i)
    {
      if IsSpace(text[i]) {
        if run == -1 { run := i; }
        assert CanonUpTo(text, i + 1) == CanonUpTo(text, i);
      } else {
        CanonUpToIsEmpty(text, i);
        if run != -1 {
          if output != [] {
            output, at := output + [' '], at + [run];
          }
          run := -1;
        }
        assert Written(output, at, CanonUpTo(text, i) + Lead(text, i));
        output, at := AppendMapped(output, at, MapChar(text[i]), i, CanonUpTo(text, i) + Lead(text, i));
      }
    }
    CanonWellPlaced(text, |text|);
    ghost var lo, hi;
    canonText, offsets, lo, hi := Trim(output, at);
    assert lo == 0 && hi == |output|;
  }

  // ----- consequences -----

  lemma {:induction false} PlacedInOrder(text: string, g: seq<Glyph>, n: nat, k: nat, m: nat)
    requires WellPlaced(text, g, n) && k < m < |g|
    ensures g[k].at <= g[m].at
  {
    assert Follows(g[m - 1], g[m]);
    if k < m - 1 { PlacedInOrder(text, g, n, k, m - 1); }
  }

  /** Offsets are valid raw indices and never go backwards. */
  lemma OffsetsInOrder(text: string)
    ensures forall k :: 0 <= k < |GlyphsOf(text)| ==> GlyphsOf(text)[k].at < |text|
    ensures forall k, m :: 0 <= k < m < |GlyphsOf(text)| ==> GlyphsOf(text)[k].at <= GlyphsOf(text)[m].at
  {
    var g := GlyphsOf(text);
    CanonWellPlaced(text, |text|);
    assert forall k :: 0 <= k < |g| ==> GoodGlyph(text, g[k], |text|);
    forall k, m | 0 <= k < m < |g| ensures g[k].at <= g[m].at { PlacedInOrder(text, g, |text|, k, m); }
  }

  ghost predicate Canonical(s: string) {
    && (forall k :: 0 <= k < |s| ==> (IsSpace(s[k]) <==> s[k] == ' ') && MapChar(s[k]) == [s[k]])
    && (s != [] ==> s[0] != ' ' && s[|s| - 1] != ' ')
    && (forall k :: 0 <= k < |s| - 1 ==> s[k] != ' ' || s[k + 1] != ' ')
  }

  function Identity(s: string, n: nat): seq<Glyph>
    requires n <= |s|
  {
    seq(n, k requires 0 <= k < n => Glyph(s[k], k))
  }

  lemma {:induction false} CanonicalPrefix(s: string, n: nat)
    requires Canonical(s) && n <= |s|
    ensures CanonUpTo(s, n) == Identity(s, if n > 0 && s[n - 1] == ' ' then n - 1 else n)
  {
    hide IsSpace, MapChar;
    if n != 0 {
      CanonicalPrefix(s, n - 1);
      if s[n - 1] != ' ' && n > 1 && s[n - 2] == ' ' {
        assert RunStart(s, n - 1) == n - 2;
      }
    }
  }

  lemma {:induction false} OutputIsMapped(text: string, n: nat)
    requires n <= |text|
    ensures forall k ::
      0 <= k < |CanonUpTo(text, n)| ==> MapChar(CanonUpTo(text, n)[k].ch) == [CanonUpTo(text, n)[k].ch]
  {
    hide MapChar, IsSpace;
    if n != 0 {
      OutputIsMapped(text, n - 1);
      if !IsSpace(text[n - 1]) { MappedIsVisible(text[n - 1]); SpaceIsMapped(); }
    }
  }

  lemma CanonIsCanonical(text: string)
    ensures Canonical(CanonText(text))
  {
    CanonWellPlaced(text, |text|);
    OutputIsMapped(text, |text|);
  }

  /** A canonical string is its own canonical form, each character at its own index. */
  lemma CanonicalIsFixed(s: string)
    requires Canonical(s)
    ensures GlyphsOf(s) == Identity(s, |s|) && CanonText(s) == s
  {
    CanonicalPrefix(s, |s|);
  }

  lemma CanonIdempotent(text: string)
    ensures CanonText(CanonText(text)) == CanonText(text)
  {
    CanonIsCanonical(text);
    CanonicalIsFixed(CanonText(text));
  }

  // ----- re-canonicalizing a raw slice -----

  lemma {:induction false} CanonPrefix(text: string, a: nat, b: nat)
    requires a <= b <= |text|
    ensures |CanonUpTo(text, a)| <= |CanonUpTo(text, b)|
    ensures CanonUpTo(text, b)[..|CanonUpTo(text, a)|] == CanonUpTo(text, a)
  {
    hide MapChar, IsSpace, Lead;
    if a < b { CanonPrefix(text, a, b - 1); }
  }

  /** Canonical index of the first character that raw index `a` maps to. */
  function HeadOf(text: string, a: nat): (h: nat)
    requires a < |text| && !IsSpace(text[a])
    ensures h + |MapChar(text[a])| == |CanonUpTo(text, a + 1)|
  {
    |CanonUpTo(text, a + 1)| - |MapChar(text[a])|
  }

  /** The glyph at `k` is one of those its raw character maps to. */
  lemma {:induction false} GlyphOwner(text: string, n: nat, k: nat)
    requires n <= |text| && k < |CanonUpTo(text, n)| && CanonUpTo(text, n)[k].ch != ' '
    ensures var p := CanonUpTo(text, n)[k].at;
            && p < n && !IsSpace(text[p])
            && HeadOf(text, p) <= k < HeadOf(text, p) + |MapChar(text[p])|
            && CanonUpTo(text, n)[k].ch == MapChar(text[p])[k - HeadOf(text, p)]
  {
    hide MapChar, IsSpace;
    if IsSpace(text[n - 1]) || k < |CanonUpTo(text, n - 1)| {
      GlyphOwner(text, n - 1, k);
      assert CanonUpTo(text, n)[k] == CanonUpTo(text, n - 1)[k];
    } else {
      var lead, tail := CanonUpTo(text, n - 1) + Lead(text, n - 1), Glyphs(MapChar(text[n - 1]), n - 1);
      assert CanonUpTo(text, n) == lead + tail;
      forall m | |CanonUpTo(text, n - 1)| <= m < |lead| ensures lead[m].ch == ' ' {
        assert lead[m] == Lead(text, n - 1)[m - |CanonUpTo(text, n - 1)|];
      }
      assert CanonUpTo(text, n)[k] == tail[k - |lead|];
    }
  }

  lemma {:induction false} RunStartInSlice(text: string, a: nat, b: nat, i: nat)
    requires a < b <= |text| && !IsSpace(text[a]) && 1 <= i <= b - a
    ensures RunStart(text[a..b], i) == RunStart(text, a + i) - a >= 1
  {
    if i > 1 && IsSpace(text[a + i - 1]) { RunStartInSlice(text, a, b, i - 1); }
  }

  function LeadText(text: string, i: nat): string
    requires i < |text|
  {
    if 0 < RunStart(text, i) < i then " " else ""
  }

  lemma CharsStep(text: string, n: nat)
    requires 0 < n <= |text| && !IsSpace(text[n - 1])
    ensures Chars(CanonUpTo(text, n)) == Chars(CanonUpTo(text, n - 1)) + (LeadText(text, n - 1) + MapChar(text[n - 1]))
  {
    hide MapChar, IsSpace;
    var g, lead, tail := CanonUpTo(text, n - 1), Lead(text, n - 1), Glyphs(MapChar(text[n - 1]), n - 1);
    assert CanonUpTo(text, n) == g + lead + tail;
    assert Chars(lead) == LeadText(text, n - 1);
    assert Chars(tail) == MapChar(text[n - 1]);
    assert Chars(g + lead) == Chars(g) + Chars(lead);
    assert Chars(g + lead + tail) == Chars(g + lead) + Chars(tail);
  }

  lemma CharsSkip(text: string, n: nat)
    requires 0 < n <= |text| && IsSpace(text[n - 1])
    ensures CanonUpTo(text, n) == CanonUpTo(text, n - 1)
  {
  }

  lemma NothingYet(text: string)
    requires text != []
    ensures Chars(CanonUpTo(text, 0)) == "" && LeadText(text, 0) == ""
  {
  }

  lemma SliceFirst(text: string, a: nat, b: nat)
    requires a < b <= |text| && !IsSpace(text[a])
    ensures Chars(CanonUpTo(text[a..b], 1)) == Chars(CanonUpTo(text, a + 1))[HeadOf(text, a)..]
  {
    hide CanonUpTo, MapChar, IsSpace, Chars, RunStart;
    var slice := text[a..b];
    CharsStep(text, a + 1);
    CharsStep(slice, 1);
    NothingYet(slice);
    DropTwo(Chars(CanonUpTo(text, a)), LeadText(text, a), MapChar(text[a]));
    assert "" + ("" + MapChar(text[a])) == MapChar(text[a]);
  }

  lemma DropTwo(s: string, t: string, u: string)
    ensures (s + (t + u))[|s| + |t|..] == u
  {
  }

  lemma SliceNext(text: string, a: nat, b: nat, n: nat, h: nat)
    requires a < n < b <= |text| && !IsSpace(text[a]) && h <= |CanonUpTo(text, n)|
    requires Chars(CanonUpTo(text[a..b], n - a)) == Chars(CanonUpTo(text, n))[h..]
    ensures h <= |CanonUpTo(text, n + 1)|
    ensures Chars(CanonUpTo(text[a..b], n + 1 - a)) == Chars(CanonUpTo(text, n + 1))[h..]
  {
    hide CanonUpTo, MapChar, IsSpace;
    var slice := text[a..b];
    assert slice[n - a] == text[n];
    if IsSpace(text[n]) {
      CharsSkip(text, n + 1);
      CharsSkip(slice, n + 1 - a);
    } else {
      RunStartInSlice(text, a, b, n - a);
      CharsStep(text, n + 1);
      CharsStep(slice, n + 1 - a);
      var more := LeadText(text, n) + MapChar(text[n]);
      assert LeadText(slice, n - a) == LeadText(text, n);
      DropAppend(Chars(CanonUpTo(text, n)), more, h);
    }
  }

  lemma DropAppend(s: string, t: string, h: nat)
    requires h <= |s|
    ensures (s + t)[h..] == s[h..] + t
  {
  }

  /** Canonicalizing a slice that starts on a visible character gives the
      matching stretch of the whole text's canonical form. */
  lemma {:induction false} SliceCanon(text: string, a: nat, b: nat, n: nat)
    requires a < n <= b <= |text| && !IsSpace(text[a])
    ensures HeadOf(text, a) <= |CanonUpTo(text, n)|
    ensures Chars(CanonUpTo(text[a..b], n - a)) == Chars(CanonUpTo(text, n))[HeadOf(text, a)..]
    decreases n
  {
    hide CanonUpTo;
    if n == a + 1 {
      SliceFirst(text, a, b);
    } else {
      SliceCanon(text, a, b, n - 1);
      SliceNext(text, a, b, n - 1, HeadOf(text, a));
    }
  }

  lemma LongImageIsEllipsis(c: char)
    requires |MapChar(c)| > 1
    ensures c == '\U{2026}' && MapChar(c) == "..."
  {
  }

  /** Where the image of raw character `p` lies in the canonical text. */
  lemma ImageOf(text: string, p: nat, k: nat)
    requires p < |text| && !IsSpace(text[p]) && HeadOf(text, p) <= k < HeadOf(text, p) + |MapChar(text[p])|
    ensures k < |GlyphsOf(text)| && CanonText(text)[k] == MapChar(text[p])[k - HeadOf(text, p)]
  {
    hide MapChar, IsSpace;
    CanonPrefix(text, p + 1, |text|);
    assert CanonUpTo(text, p + 1)[k] == Glyphs(MapChar(text[p]), p)[k - HeadOf(text, p)];
    assert GlyphsOf(text)[..|CanonUpTo(text, p + 1)|][k] == CanonUpTo(text, p + 1)[k];
  }

  predicate IsEllipsis(text: string, i: nat) {
    i < |text| && text[i] == '\U{2026}'
  }

  /** `lo` and `hi` widened to whole images of the raw characters at both ends. */
  ghost predicate Extent(text: string, lo: nat, hi: nat, h: nat, e: nat) {
    && h <= lo < hi <= e <= |GlyphsOf(text)| && lo - h <= 2 && e - hi <= 2
    && (forall k :: h <= k < lo || hi <= k < e ==> CanonText(text)[k] == '.')
    && (h < lo ==> IsEllipsis(text, GlyphsOf(text)[lo].at) && CanonText(text)[lo] == '.')
    && (hi < e ==> IsEllipsis(text, GlyphsOf(text)[hi - 1].at) && CanonText(text)[hi - 1] == '.')
  }

  lemma MatchExtent(text: string, lo: nat, hi: nat)
    requires lo < hi <= |GlyphsOf(text)| && GlyphsOf(text)[lo].ch != ' ' && GlyphsOf(text)[hi - 1].ch != ' '
    ensures GlyphsOf(text)[lo].at <= GlyphsOf(text)[hi - 1].at < |text|
    ensures !IsSpace(text[GlyphsOf(text)[lo].at])
    ensures Extent(text, lo, hi, HeadOf(text, GlyphsOf(text)[lo].at), |CanonUpTo(text, GlyphsOf(text)[hi - 1].at + 1)|)
  {
    hide CanonUpTo, MapChar, IsSpace;
    var g := GlyphsOf(text);
    var a, z := g[lo].at, g[hi - 1].at;
    OffsetsInOrder(text);
    assert lo == hi - 1 || a <= z;
    GlyphOwner(text, |text|, lo);
    GlyphOwner(text, |text|, hi - 1);
    CanonPrefix(text, z + 1, |text|);
    var h, e := HeadOf(text, a), |CanonUpTo(text, z + 1)|;
    if h < lo { LongImageIsEllipsis(text[a]); ImageOf(text, a, lo); }
    if hi < e { LongImageIsEllipsis(text[z]); ImageOf(text, z, hi - 1); }
    forall k | h <= k < lo || hi <= k < e ensures CanonText(text)[k] == '.' {
      ImageOf(text, if k < lo then a else z, k);
    }
  }

  /** Re-canonicalizing the raw characters behind canonical positions `lo..hi`
      gives that stretch back, widened only to whole images of its two end
      characters: at most two dots a side, from a split ellipsis. */
  lemma SliceOfMatch(text: string, lo: nat, hi: nat) returns (h: nat, e: nat)
    requires lo < hi <= |GlyphsOf(text)| && GlyphsOf(text)[lo].ch != ' ' && GlyphsOf(text)[hi - 1].ch != ' '
    ensures GlyphsOf(text)[lo].at <= GlyphsOf(text)[hi - 1].at < |text|
    ensures Extent(text, lo, hi, h, e)
    ensures CanonText(text[GlyphsOf(text)[lo].at..GlyphsOf(text)[hi - 1].at + 1]) == CanonText(text)[h..e]
  {
    hide CanonUpTo, MapChar, IsSpace;
    MatchExtent(text, lo, hi);
    var a, b := GlyphsOf(text)[lo].at, GlyphsOf(text)[hi - 1].at + 1;
    h, e := HeadOf(text, a), |CanonUpTo(text, b)|;
    SliceCanon(text, a, b, b);
    assert |text[a..b]| == b - a;
    CanonPrefix(text, b, |text|);
    assert Chars(CanonUpTo(text, b)) == CanonText(text)[..e];
  }
}
