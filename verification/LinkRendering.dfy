/** What rendering writes, said of the text itself: which link each suggestion gets, with which
    words, and exactly when it goes into the prose. */
module LinkRendering {
  import opened Prelude
  import opened HtmlScanner
  import opened ProseRegions
  import opened LinkSplice
  import opened InTextMarks
  import opened LinkPlacement
  import opened LinkBatch

  // ---- The text -------------------------------------------------------------

  /** `after` is `before` with the words from `a` to `b` linked. */
  predicate LinksWords(before: string, after: string, href: string, a: nat, b: nat) {
    && a < b <= |before|
    && after == before[..a] + "<a data-linkmesh=\"in-text\" href=\"" + href + "\">" + before[a..b] + "</a>" + before[b..]
  }

  /** `after` is `before` with a paragraph appended that holds the link. */
  predicate AppendsParagraph(before: string, after: string, href: string, words: string) {
    after == before + "\n" + ("<!-- wp:paragraph -->\n<p>" + "Read also: <a href=\"") + href + "\">" + words + "</a></p>\n<!-- /wp:paragraph -->"
  }

  /** One suggestion rendered, as its outcome tells it: nothing, or its target linked on one
      match of its anchor, or in a paragraph whose words are its anchor, or the target's title
      when it has none. */
  ghost predicate RendersAs(find: Finder, before: string, after: string, w: Wish, outcome: Outcome) {
    match outcome
    case AlreadyPresent => after == before
    case Inserted =>
      w.anchor != "" && exists sp :: sp in find(before, w.anchor) && LinksWords(before, after, Escape(w.target), sp.start, sp.end)
    case BlockAdded => AppendsParagraph(before, after, Escape(w.target), Escape(if w.anchor != "" then w.anchor else w.title))
  }

  lemma SplicedText(before: string, a: nat, b: nat, href: string)
    requires a < b <= |before|
    ensures LinksWords(before, Spliced(before, a, b, href), href, a, b)
  {
    var open := "<a data-linkmesh=\"in-text\" href=\"" + href + "\">";
    OpenParts(href);
    assert OpenTag(href) == open;
    WrappedText(before, a, b, open, "</a>");
  }

  lemma WrappedText(before: string, a: nat, b: nat, open: string, close: string)
    requires a <= b <= |before|
    ensures Wrapped(before, a, b, open, close) == before[..a] + open + before[a..b] + close + before[b..]
  {
    assert before[..a] + (open + before[a..b] + close) + before[b..] == before[..a] + open + before[a..b] + close + before[b..];
  }

  lemma BlockText(before: string, href: string, words: string)
    ensures AppendsParagraph(before, before + Block(href, words), href, words)
  {
    AppendedText(before, "<!-- wp:paragraph -->\n<p>" + "Read also: <a href=\"", href, "\">", words, "</a></p>\n<!-- /wp:paragraph -->");
  }

  lemma AppendedText(x: string, a: string, b: string, c: string, d: string, e: string)
    ensures x + ("\n" + (a + b + c + d + e)) == x + "\n" + a + b + c + d + e
  {
    Regrouped(x + "\n", a, b, c, d, e);
    assert x + ("\n" + (a + b + c + d + e)) == x + "\n" + (a + b + c + d + e);
  }

  lemma Regrouped(x: string, a: string, b: string, c: string, d: string, e: string)
    ensures x + (a + b + c + d + e) == x + a + b + c + d + e
  {
  }

  lemma RegroupedTail(x: string, c: string, d: string, e: string)
    ensures x + (c + d + e) == x + c + d + e
  {
  }

  /** A suggestion whose target is not in the post yet gets exactly one link to it. */
  lemma RendersOne(find: Finder, cfg: Settings, page: Page, w: Wish)
    requires Finds(find) && w.target !in page.existing
    ensures !Decide(find, cfg, page, w).Present?
    ensures RendersAs(find, page.content, Turn(find, cfg, page, w).content, w, OutcomeOf(Decide(find, cfg, page, w)))
  {
    var e := Decide(find, cfg, page, w);
    match e
    case InText(a, b, href) =>
      var sp := AnchorSpan(find, page.content, w.anchor).value;
      AnchorSpanExact(find, page.content, w.anchor, sp);
      assert sp in find(page.content, w.anchor) && a == sp.start && b == sp.end;
      SplicedText(page.content, a, b, href);
    case Appended(href, words) => BlockText(page.content, href, words);
    case Present =>
  }

  lemma FirstRendered(find: Finder, cfg: Settings, page: Page, wishes: seq<Wish>)
    requires Finds(find) && wishes != []
    ensures var edits := Edits(find, cfg, page, wishes);
      && Final(page.content, edits[..0]) == page.content
      && Final(page.content, edits[..1]) == Turn(find, cfg, page, wishes[0]).content
  {
    var edits := Edits(find, cfg, page, wishes);
    EditsFront(find, cfg, page, wishes);
    assert edits[..0] == [] && edits[..1] == [edits[0]] && [edits[0]][1..] == [];
    assert Final(page.content, [edits[0]]) == Final(Edited(page.content, edits[0]), []);
  }

  lemma LaterRendered(content: string, edits: seq<Edit>, i: nat)
    requires 0 < i < |edits|
    ensures Final(content, edits[..i]) == Final(Edited(content, edits[0]), edits[1..][..i - 1])
    ensures Final(content, edits[..i + 1]) == Final(Edited(content, edits[0]), edits[1..][..i])
  {
    assert edits[..i][1..] == edits[1..][..i - 1];
    assert edits[..i + 1][1..] == edits[1..][..i];
  }

  /** Rendering a whole list takes the suggestions one by one, in order: each makes of the post
      the ones before it left exactly what its outcome tells, and its outcome is that the link
      was already present when the post linked its target or an earlier one asked for it. */
  lemma {:induction false} RendersEach(find: Finder, cfg: Settings, page: Page, wishes: seq<Wish>, i: nat)
    requires Finds(find) && i < |wishes|
    ensures var edits := Edits(find, cfg, page, wishes);
      var before, after := Final(page.content, edits[..i]), Final(page.content, edits[..i + 1]);
      && RendersAs(find, before, after, wishes[i], Outcomes(edits)[i])
      && (Outcomes(edits)[i] == AlreadyPresent <==> wishes[i].target in page.existing || TargetedBefore(wishes, i, wishes[i].target))
    decreases |wishes|
  {
    var edits := Edits(find, cfg, page, wishes);
    PresentExactly(find, cfg, page, wishes, i);
    EditsFront(find, cfg, page, wishes);
    if i == 0 {
      FirstRendered(find, cfg, page, wishes);
      if wishes[0].target !in page.existing { RendersOne(find, cfg, page, wishes[0]); }
    } else {
      RendersEach(find, cfg, Turn(find, cfg, page, wishes[0]), wishes[1..], i - 1);
      LaterRendered(page.content, edits, i);
    }
  }

  /** A post of nothing but white space links nothing; any other links what its hrefs say. */
  lemma FirstLinks(hrefs: string -> set<string>, content: string)
    ensures FirstPage(hrefs, content).content == content
    ensures FirstPage(hrefs, content).existing == if exists i :: 0 <= i < |content| && !Space(content[i]) then hrefs(content) else {}
  {
  }

  // ---- The links in it ------------------------------------------------------

  function NextQuote(s: string, from: nat): (r: Option<nat>)
    ensures r.Some? ==> from <= r.value < |s| && s[r.value] == '"' && '"' !in s[from..r.value]
    ensures r.None? ==> forall j :: from <= j < |s| ==> s[j] != '"'
    decreases |s| - from
  {
    if from >= |s| then None
    else if s[from] == '"' then Some(from)
    else
      var r := NextQuote(s, from + 1);
      assert r.Some? ==> s[from..r.value] == [s[from]] + s[from + 1..r.value];
      r
  }

  predicate HrefAt(s: string, k: nat) {
    k + 6 <= |s| && s[k] == 'h' && s[k + 1] == 'r' && s[k + 2] == 'e' && s[k + 3] == 'f' && s[k + 4] == '=' && s[k + 5] == '"'
  }

  /** The quoted values of the href attributes of a text, left to right. */
  function Hrefs(s: string, from: nat): seq<string>
    decreases |s| - from
  {
    if from >= |s| then []
    else if HrefAt(s, from) && NextQuote(s, from + 6).Some? then
      var end := NextQuote(s, from + 6).value;
      [s[from + 6..end]] + Hrefs(s, end + 1)
    else Hrefs(s, from + 1)
  }

  lemma {:induction false} NoHrefs(s: string, from: nat)
    requires forall j :: from <= j < |s| ==> s[j] != '"'
    ensures Hrefs(s, from) == []
    decreases |s| - from
  {
    if from < |s| { NoHrefs(s, from + 1); }
  }

  lemma {:induction false} NextQuoteIs(s: string, from: nat, q: nat)
    requires from <= q < |s| && s[q] == '"' && forall j :: from <= j < q ==> s[j] != '"'
    ensures NextQuote(s, from) == Some(q)
    decreases q - from
  {
    if from < q { NextQuoteIs(s, from + 1, q); }
  }

  lemma {:induction false} OneHref(s: string, k: nat, end: nat, from: nat)
    requires from <= k && HrefAt(s, k) && forall j: nat :: from <= j < k ==> !HrefAt(s, j)
    requires k + 6 <= end < |s| && s[end] == '"'
    requires forall j :: k + 6 <= j < |s| && j != end ==> s[j] != '"'
    ensures Hrefs(s, from) == [s[k + 6..end]]
    decreases k - from
  {
    if from < k {
      OneHref(s, k, end, from + 1);
    } else {
      NextQuoteIs(s, k + 6, end);
      NoHrefs(s, end + 1);
    }
  }

  lemma QuotedOnce(front: string, href: string, back: string)
    requires |front| >= 6 && HrefAt(front, |front| - 6) && forall i :: 0 <= i < |front| - 1 ==> front[i] != '"'
    requires '"' !in href && back != "" && back[0] == '"' && forall i :: 1 <= i < |back| ==> back[i] != '"'
    ensures Hrefs(front + href + back, 0) == [href]
  {
    var s, k := front + href + back, |front| - 6;
    QuotesOfText(front, href, back, s);
    OneHref(s, k, k + 6 + |href|, 0);
    assert s[k + 6..k + 6 + |href|] == href;
  }

  lemma QuotesOfText(front: string, href: string, back: string, s: string)
    requires |front| >= 6 && HrefAt(front, |front| - 6) && forall i :: 0 <= i < |front| - 1 ==> front[i] != '"'
    requires '"' !in href && back != "" && back[0] == '"' && forall i :: 1 <= i < |back| ==> back[i] != '"'
    requires s == front + href + back
    ensures HrefAt(s, |front| - 6) && |front| + |href| < |s| && s[|front| + |href|] == '"'
    ensures forall j :: 0 <= j < |s| && j != |front| - 1 && j != |front| + |href| ==> s[j] != '"'
    ensures forall j: nat :: j < |front| - 6 ==> !HrefAt(s, j)
  {
    var k := |front|;
    assert forall i :: 0 <= i < k ==> s[i] == front[i];
    assert forall i :: k <= i < k + |href| ==> s[i] == href[i - k];
    assert forall i :: k + |href| <= i < |s| ==> s[i] == back[i - k - |href|];
  }

  /** The paragraph holds one href, the target's. */
  lemma ParagraphHref(href: string, words: string)
    requires '"' !in href && '"' !in words
    ensures Hrefs(Block(href, words), 0) == [href]
  {
    var inner := "<!-- wp:paragraph -->\n<p>" + "Read also: <a href=\"";
    var end := "</a></p>\n<!-- /wp:paragraph -->";
    var front, back := "\n" + inner, "\">" + words + end;
    FrontQuotes(inner, front);
    assert '"' !in end;
    assert forall i :: 1 <= i < |back| ==> back[i] != '"' by {
      forall i | 1 <= i < |back| ensures back[i] != '"' {
        if 2 <= i < 2 + |words| { assert back[i] == words[i - 2]; }
      }
    }
    QuotedOnce(front, href, back);
    Regrouped("\n", inner, href, "\">", words, end);
    RegroupedTail(front + href, "\">", words, end);
  }

  lemma FrontQuotes(inner: string, front: string)
    requires inner == "<!-- wp:paragraph -->\n<p>" + "Read also: <a href=\"" && front == "\n" + inner
    ensures HrefAt(front, |front| - 6) && forall i :: 0 <= i < |front| - 1 ==> front[i] != '"'
  {
    var one, two := "<!-- wp:paragraph -->\n<p>", "Read also: <a href=\"";
    assert |one| == 25 && |two| == 20 && HrefAt(two, 14);
    assert forall i :: 0 <= i < 25 ==> one[i] != '"';
    assert forall i :: 0 <= i < 19 ==> two[i] != '"';
    assert forall i :: 0 <= i < 25 ==> inner[i] == one[i];
    assert forall i :: 25 <= i < 45 ==> inner[i] == two[i - 25];
    assert forall i :: 1 <= i < |front| ==> front[i] == inner[i - 1];
  }

  /** So does the opening tag of a link in the prose. */
  lemma OpenTagHref(href: string)
    requires '"' !in href
    ensures Hrefs(OpenTag(href), 0) == [href]
  {
    var s := OpenTag(href);
    OpenParts(href);
    OpenQuotes(href);
    assert forall i :: 0 <= i < 33 ==> s[i] == FRONT[i];
    assert FRONT[12] == 'm' && FRONT[20] == '-' && HrefAt(FRONT, 27);
    assert s[33 + |href|] == '"' && s[33..33 + |href|] == href;
    OneHref(s, 27, 33 + |href|, 0);
  }

  // ---- Escaping -------------------------------------------------------------

  /** Reading the five character references back. */
  function Unescaped(s: string): string
    decreases |s|
  {
    if s == "" then ""
    else if "&amp;" <= s then "&" + Unescaped(s[5..])
    else if "&lt;" <= s then "<" + Unescaped(s[4..])
    else if "&gt;" <= s then ">" + Unescaped(s[4..])
    else if "&quot;" <= s then "\"" + Unescaped(s[6..])
    else if "&#x27;" <= s then "'" + Unescaped(s[6..])
    else [s[0]] + Unescaped(s[1..])
  }

  /** A browser reads the escaped text as the text. */
  lemma {:induction false} EscapeReadsBack(s: string)
    ensures Unescaped(Escape(s)) == s
  {
    if s != "" {
      var c, rest := s[0], Escape(s[1..]);
      EscapeReadsBack(s[1..]);
      EscapedChar(c, rest);
      assert s == [c] + s[1..];
    }
  }

  lemma EscapedChar(c: char, rest: string)
    ensures Unescaped(EscapeChar(c) + rest) == [c] + Unescaped(rest)
  {
    var t := EscapeChar(c) + rest;
    assert t[|EscapeChar(c)|..] == rest;
    assert "&amp;"[0] == "&lt;"[0] == "&gt;"[0] == "&quot;"[0] == "&#x27;"[0] == '&';
    assert "&amp;"[1] == 'a' && "&lt;"[1] == 'l' && "&gt;"[1] == 'g' && "&quot;"[1] == 'q' && "&#x27;"[1] == '#';
    if c == '&' {
      assert t[..5] == "&amp;";
    } else if c == '<' {
      assert t[..4] == "&lt;";
    } else if c == '>' {
      assert t[..4] == "&gt;";
    } else if c == '"' {
      assert t[..6] == "&quot;";
    } else if c == '\'' {
      assert t[..6] == "&#x27;";
    } else {
      assert t[0] == c;
    }
  }

  // ---- In the prose or not --------------------------------------------------

  /** Far enough from every link of ours already there. */
  ghost predicate Clear(content: string, a: nat, b: nat, gap: int) {
    gap <= 0 || forall p: nat :: MarkAt(content, p) ==> p <= a - gap || p >= b + gap
  }

  lemma CrowdsExactly(content: string, a: nat, b: nat, gap: int)
    ensures Crowds(content, Span(a, b), gap) <==> !Clear(content, a, b, gap)
  {
    if Crowds(content, Span(a, b), gap) {
      var p :| p in MarkList(content, 0) && a - gap < p < b + gap;
      MarkListFindsAll(content, 0, p);
    }
    if !Clear(content, a, b, gap) {
      var p: nat :| MarkAt(content, p) && !(p <= a - gap || p >= b + gap);
      MarkListFindsAll(content, 0, p);
    }
  }

  /** A suggestion is linked in the prose, at these words, exactly when its target is not in the
      post, it has an anchor, the post is under the cap, and these words are the one usable
      match of the anchor and clear of every other link of ours. */
  lemma InTextExactly(find: Finder, cfg: Settings, page: Page, w: Wish, a: nat, b: nat)
    ensures (exists href :: Decide(find, cfg, page, w) == InText(a, b, href)) <==>
      && w.target !in page.existing && w.anchor != "" && Count(page.content) < cfg.cap
      && OnlyOne((x: Span) => Usable(page.content, x), find(page.content, w.anchor), Span(a, b))
      && Clear(page.content, a, b, cfg.gap)
  {
    AnchorSpanExact(find, page.content, w.anchor, Span(a, b));
    CrowdsExactly(page.content, a, b, cfg.gap);
    MarkListLength(page.content, 0);
    assert page.content[0..] == page.content;
    if AnchorSpan(find, page.content, w.anchor) == Some(Span(a, b)) && w.target !in page.existing && w.anchor != ""
       && Count(page.content) < cfg.cap && Clear(page.content, a, b, cfg.gap) {
      assert Decide(find, cfg, page, w) == InText(a, b, Escape(w.target));
    }
  }

  // ---- Shortcodes -----------------------------------------------------------

  predicate Covered(spans: seq<Span>, k: nat) { exists i :: 0 <= i < |spans| && spans[i].start <= k < spans[i].end }

  /** A `[` at `i` that nothing closes before `k`. */
  predicate OpenBracket(s: string, i: nat, k: nat) {
    i <= k < |s| && s[i] == '[' && forall j :: i < j < k ==> s[j] != ']'
  }

  /** Position `k` is inside a shortcode: some `[` before it, or at it, is closed at it or later,
      and not sooner. */
  ghost predicate InShortcode(s: string, from: nat, k: nat) {
    && (exists i: nat :: from <= i && OpenBracket(s, i, k))
    && exists j :: k <= j < |s| && s[j] == ']'
  }

  lemma {:induction false} ShortcodesCover(s: string, from: nat, k: nat)
    requires from <= k
    ensures Covered(Shortcodes(s, from), k) <==> InShortcode(s, from, k)
    decreases |s| - from
  {
    if from < |s| {
      if s[from] == '[' && NextBracket(s, from + 1).Some? {
        var end := NextBracket(s, from + 1).value + 1;
        ShortcodeFirst(s, from, end, k);
        if k >= end { ShortcodesCover(s, end, k); } else { ShortcodesAhead(s, end); }
        CoveredMore(Span(from, end), Shortcodes(s, end), k);
      } else {
        if k > from { ShortcodesCover(s, from + 1, k); } else { ShortcodesAhead(s, from + 1); }
        NoShortcodeHere(s, from, k);
      }
    }
  }

  lemma {:induction false} ShortcodesAhead(s: string, from: nat)
    ensures forall i :: 0 <= i < |Shortcodes(s, from)| ==> from <= Shortcodes(s, from)[i].start
    decreases |s| - from
  {
    if from < |s| {
      if s[from] == '[' && NextBracket(s, from + 1).Some? {
        ShortcodesAhead(s, NextBracket(s, from + 1).value + 1);
      } else {
        ShortcodesAhead(s, from + 1);
      }
    }
  }

  lemma CoveredMore(first: Span, spans: seq<Span>, k: nat)
    ensures Covered([first] + spans, k) <==> first.start <= k < first.end || Covered(spans, k)
  {
    var more := [first] + spans;
    if Covered(spans, k) {
      var i :| 0 <= i < |spans| && spans[i].start <= k < spans[i].end;
      assert more[i + 1] == spans[i];
    }
    assert more[0] == first;
  }

  lemma ShortcodeFirst(s: string, from: nat, end: nat, k: nat)
    requires from < |s| && s[from] == '[' && NextBracket(s, from + 1) == Some(end - 1) && end > 0 && from <= k
    ensures k < end ==> InShortcode(s, from, k)
    ensures k >= end ==> (InShortcode(s, from, k) <==> InShortcode(s, end, k))
  {
    assert s[end - 1] == ']';
    if k < end { assert OpenBracket(s, from, k); }
    if k >= end && InShortcode(s, from, k) {
      var i: nat :| from <= i && OpenBracket(s, i, k);
      assert i >= end;
    }
  }

  lemma NoShortcodeHere(s: string, from: nat, k: nat)
    requires from < |s| && from <= k && (s[from] != '[' || NextBracket(s, from + 1).None?)
    ensures InShortcode(s, from, k) <==> k > from && InShortcode(s, from + 1, k)
  {
    if InShortcode(s, from, k) {
      var i: nat :| from <= i && OpenBracket(s, i, k);
      var j :| k <= j < |s| && s[j] == ']';
      assert j != from ==> j >= from + 1;
    }
  }
}
