/** The canonical form said of a text's visible stretches: what a stretch, a gap
    between two, and space around them become. Together these fix it for every text. */
module CanonWords {
  import opened Canon

  predicate AllSpace(s: string) { forall k :: 0 <= k < |s| ==> IsSpace(s[k]) }

  predicate AllVisible(s: string) { forall k :: 0 <= k < |s| ==> !IsSpace(s[k]) }

  /** Every character replaced by its plain form. */
  function Plain(s: string): string { if s == "" then "" else Plain(s[..|s| - 1]) + MapChar(s[|s| - 1]) }

  lemma {:induction false} PrefixIsOwn(text: string, more: string, n: nat)
    requires n <= |text|
    ensures CanonUpTo(text + more, n) == CanonUpTo(text, n)
  {
    hide IsSpace, MapChar;
    if n != 0 {
      PrefixIsOwn(text, more, n - 1);
      assert (text + more)[n - 1] == text[n - 1];
      RunStartIsOwn(text, more, n - 1);
    }
  }

  lemma {:induction false} RunStartIsOwn(text: string, more: string, n: nat)
    requires n <= |text|
    ensures RunStart(text + more, n) == RunStart(text, n)
  {
    if n != 0 {
      assert (text + more)[n - 1] == text[n - 1];
      RunStartIsOwn(text, more, n - 1);
    }
  }

  predicate SpaceBetween(text: string, a: nat, b: nat)
    requires b <= |text|
  {
    forall k :: a <= k < b ==> IsSpace(text[k])
  }

  lemma {:induction false} SpacesAddNothing(text: string, a: nat, b: nat)
    requires a <= b <= |text| && SpaceBetween(text, a, b)
    ensures CanonUpTo(text, b) == CanonUpTo(text, a)
  {
    hide IsSpace;
    if a < b { SpacesAddNothing(text, a, b - 1); }
  }

  /** Space alone comes to nothing. */
  lemma SpaceVanishes(g: string)
    requires AllSpace(g)
    ensures CanonText(g) == ""
  {
    SpacesAddNothing(g, 0, |g|);
  }

  /** Space behind a text changes nothing. */
  lemma SpaceBehindVanishes(t: string, g: string)
    requires AllSpace(g)
    ensures CanonText(t + g) == CanonText(t)
  {
    hide IsSpace, CanonUpTo;
    forall k | |t| <= k < |t + g| ensures IsSpace((t + g)[k]) { assert (t + g)[k] == g[k - |t|]; }
    SpacesAddNothing(t + g, |t|, |t + g|);
    PrefixIsOwn(t, g, |t|);
  }

  function Gap(n: nat, a: nat): string { if 0 < n < a then " " else "" }

  lemma {:induction false} RunStartsAt(text: string, n: nat, a: nat)
    requires n <= a <= |text| && SpaceBetween(text, n, a) && (n > 0 ==> !IsSpace(text[n - 1]))
    ensures RunStart(text, a) == n
  {
    hide IsSpace;
    if n < a { RunStartsAt(text, n, a - 1); }
  }

  lemma GapBefore(text: string, n: nat, a: nat)
    requires n <= a < |text| && SpaceBetween(text, n, a) && (n > 0 ==> !IsSpace(text[n - 1]))
    ensures LeadText(text, a) == Gap(n, a)
  {
    RunStartsAt(text, n, a);
  }

  /** The canonical form up to a visible character that follows a gap. */
  lemma HeadText(text: string, n: nat, a: nat)
    requires n <= a < |text| && SpaceBetween(text, n, a) && (n > 0 ==> !IsSpace(text[n - 1])) && !IsSpace(text[a])
    ensures Chars(CanonUpTo(text, a + 1)) == Chars(CanonUpTo(text, n)) + Gap(n, a) + MapChar(text[a])
    ensures HeadOf(text, a) == |Chars(CanonUpTo(text, n)) + Gap(n, a)|
  {
    hide IsSpace, MapChar, CanonUpTo;
    SpacesAddNothing(text, n, a);
    GapBefore(text, n, a);
    CharsStep(text, a + 1);
  }

  /** ... and what it is in the whole text. */
  lemma HeadAfter(text: string, n: nat, a: nat)
    requires n <= a < |text| && SpaceBetween(text, n, a) && (n > 0 ==> !IsSpace(text[n - 1])) && !IsSpace(text[a])
    ensures CanonText(text) == Chars(CanonUpTo(text, n)) + Gap(n, a) + CanonText(text[a..])
  {
    hide IsSpace, MapChar, CanonUpTo, Chars;
    HeadText(text, n, a);
    assert text[a..] == text[a..|text|];
    SliceCanon(text, a, |text|, |text|);
    CanonPrefix(text, a + 1, |text|);
    CharsPrefix(GlyphsOf(text), |CanonUpTo(text, a + 1)|);
    HeadAndRest(CanonText(text), |CanonUpTo(text, a + 1)|, Chars(CanonUpTo(text, n)) + Gap(n, a), MapChar(text[a]));
  }

  lemma CharsPrefix(g: seq<Glyph>, n: nat)
    requires n <= |g|
    ensures Chars(g)[..n] == Chars(g[..n])
  {
  }

  lemma HeadAndRest(all: string, n: nat, head: string, next: string)
    requires n <= |all| && all[..n] == head + next
    ensures all == head + all[|head|..]
  {
    assert all[..|head|] == all[..n][..|head|] == head;
  }

  /** Space before a visible character changes nothing. */
  lemma SpaceBeforeVanishes(g: string, t: string)
    requires AllSpace(g) && t != "" && !IsSpace(t[0])
    ensures CanonText(g + t) == CanonText(t)
  {
    hide IsSpace, CanonUpTo, Chars;
    forall k | 0 <= k < |g| ensures IsSpace((g + t)[k]) { assert (g + t)[k] == g[k]; }
    assert (g + t)[|g|] == t[0] && (g + t)[|g|..] == t;
    HeadAfter(g + t, 0, |g|);
    NothingYet(g + t);
    assert "" + "" + CanonText(t) == CanonText(t);
  }

  /** Any gap between two visible characters becomes one space. */
  lemma GapBecomesSpace(t: string, g: string, u: string)
    requires t != "" && !IsSpace(t[|t| - 1]) && g != "" && AllSpace(g) && u != "" && !IsSpace(u[0])
    ensures CanonText(t + g + u) == CanonText(t) + " " + CanonText(u)
  {
    hide IsSpace, CanonUpTo, Chars;
    var text, a := t + g + u, |t + g|;
    assert text == t + (g + u) && text[a..] == u && text[a] == u[0] && text[|t| - 1] == t[|t| - 1];
    forall k | |t| <= k < a ensures IsSpace(text[k]) { assert text[k] == g[k - |t|]; }
    PrefixIsOwn(t, g + u, |t|);
    HeadAfter(text, |t|, a);
  }

  /** A stretch without space is replaced character by character. */
  lemma {:induction false} VisibleIsPlain(w: string)
    requires AllVisible(w)
    ensures CanonText(w) == Plain(w)
  {
    hide IsSpace, MapChar;
    if w != "" {
      var front, n := w[..|w| - 1], |w|;
      assert w == front + [w[n - 1]];
      VisibleIsPlain(front);
      PrefixIsOwn(front, [w[n - 1]], n - 1);
      CharsStep(w, n);
      GapBefore(w, n - 1, n - 1);
    }
  }

  predicate Smart(c: char) {
    || c == '\U{2018}' || c == '\U{2019}' || c == '\U{201C}' || c == '\U{201D}'
    || c == '\U{2013}' || c == '\U{2014}' || c == '\U{2026}'
  }

  /** What separates words: blanks, tabs, line ends and no-break spaces, but no
      zero-width space and no mark. */
  lemma SpaceForms()
    ensures IsSpace(' ') && IsSpace('\t') && IsSpace('\n') && IsSpace('\r') && IsSpace('\U{00A0}')
    ensures IsSpace('\U{2003}') && IsSpace('\U{2028}') && IsSpace('\U{3000}')
    ensures !IsSpace('\U{200B}') && !IsSpace('.') && !IsSpace('-') && !IsSpace('a') && !IsSpace('0')
  {
  }

  /** The plain forms: quotes, dashes and the ellipsis. All else stays as it is. */
  lemma PlainForms()
    ensures MapChar('\U{2018}') == "'" && MapChar('\U{2019}') == "'"
    ensures MapChar('\U{201C}') == "\"" && MapChar('\U{201D}') == "\""
    ensures MapChar('\U{2013}') == "-" && MapChar('\U{2014}') == "-"
    ensures MapChar('\U{2026}') == "..."
    ensures forall c | !Smart(c) :: MapChar(c) == [c]
  {
  }

  /** The offset of a separator is the first character of the gap it stands for. */
  lemma {:induction false} SeparatorStartsGap(text: string, n: nat, k: nat)
    requires n <= |text| && k < |CanonUpTo(text, n)| && CanonUpTo(text, n)[k].ch == ' '
    ensures var at := CanonUpTo(text, n)[k].at;
      0 < at < n && IsSpace(text[at]) && !IsSpace(text[at - 1])
  {
    hide IsSpace, MapChar;
    if IsSpace(text[n - 1]) || k < |CanonUpTo(text, n - 1)| {
      SeparatorStartsGap(text, n - 1, k);
      assert CanonUpTo(text, n)[k] == CanonUpTo(text, n - 1)[k];
    } else {
      var front, lead, tail := CanonUpTo(text, n - 1), Lead(text, n - 1), Glyphs(MapChar(text[n - 1]), n - 1);
      assert CanonUpTo(text, n) == front + lead + tail;
      if k < |front| + |lead| {
        assert CanonUpTo(text, n)[k] == lead[k - |front|] == Glyph(' ', RunStart(text, n - 1));
      } else {
        VisibleTail(text, n, k - |front| - |lead|);
      }
    }
  }

  lemma VisibleTail(text: string, n: nat, k: nat)
    requires 0 < n <= |text| && !IsSpace(text[n - 1]) && k < |MapChar(text[n - 1])|
    ensures Glyphs(MapChar(text[n - 1]), n - 1)[k].ch != ' '
  {
    MappedIsVisible(text[n - 1]);
  }
}
