/** On content without tags left open, a placed link is never cut, nested or crossed by a
    later suggestion of the same list; on other content it can be. */
module LinkIntegrity {
  import opened Prelude
  import opened HtmlScanner
  import opened ProseRegions
  import opened LinkSplice
  import opened InTextMarks
  import opened LinkPlacement
  import opened LinkBatch

  /** Every `<name` in the content is ended by some `>`. */
  predicate Clean(s: string) {
    forall k :: 0 <= k < |s| && TagStart(s[k..]) ==> '>' in s[k..]
  }

  lemma CleanIsSettled(s: string, a: nat, b: nat)
    requires Clean(s) && a <= b <= |s|
    ensures SettledLink(s, a, b)
  {
    forall k, end | 0 <= k < end <= |s| && TagStart(s[k..end]) ensures TagStart(s[k..]) {
      assert s[k..] == s[k..end] + s[end..];
      TagStartGrows(s[k..end], s[end..]);
    }
  }

  // ---- Appending ------------------------------------------------------------

  lemma StepAtAppend(x: string, t: string)
    requires x != [] && t != [] && t[0] == '\n' && (TagStart(x) ==> '>' in x)
    ensures StepAt(x + t) == StepAt(x) || MatchLen(x + t) > |x|
  {
    var u := x + t;
    assert u[|x|] == '\n' && forall i :: 0 <= i < |x| ==> u[i] == x[i];
    if MatchLen(x) > 0 {
      assert u[..MatchLen(x)] == x[..MatchLen(x)];
      MatchIsLocal(x, u);
    } else if CommentStart(u) {
      var next := NextArrow(u, 4);
      if next.Some? && next.value + 2 < |x| { assert ArrowAt(x, next.value); }
    }
  }

  lemma AppendedStep(s: string, t: string, j: nat)
    requires j < |s| && t != [] && t[0] == '\n' && Clean(s)
    ensures Steps(s + t)[j] == Steps(s)[j] || j + Steps(s + t)[j].len > |s|
  {
    SuffixOfJoin(s, t, j);
    SameStepAppended(s, s + t, j, s[j..], t);
  }

  lemma SuffixOfJoin(s: string, t: string, j: nat)
    requires j < |s|
    ensures (s + t)[j..] == s[j..] + t
  {
  }

  lemma SameStepAppended(s: string, u: string, j: nat, x: string, t: string)
    requires j < |s| && j < |u| && s[j..] == x && u[j..] == x + t
    requires t != [] && t[0] == '\n' && (TagStart(x) ==> '>' in x)
    ensures Steps(u)[j] == Steps(s)[j] || Steps(u)[j].len > |x|
  {
    StepsFrom(u, j, x + t);
    StepsFrom(s, j, x);
    StepAtAppend(x, t);
  }

  lemma {:induction false} ReachAppended(xs: seq<Step>, ys: seq<Step>, stack: seq<string>, i: nat, k: nat)
    requires i <= k <= |xs| <= |ys| && Reach(ys, stack, i, k).Some?
    requires forall j :: 0 <= j < |xs| ==> ys[j] == xs[j] || j + ys[j].len > |xs|
    ensures Reach(xs, stack, i, k) == Reach(ys, stack, i, k)
    decreases k - i
  {
    if i < k {
      assert ys[i] == xs[i];
      ReachAppended(xs, ys, Next(ys[i], stack), i + Move(ys[i]), k);
    }
  }

  /** Appending a paragraph makes no old position prose that was not. */
  lemma AppendedProse(s: string, t: string, k: nat)
    requires k < |s| && t != [] && t[0] == '\n' && Clean(s) && Prose(s + t, k)
    ensures Prose(s, k)
  {
    forall j | 0 <= j < |s| ensures Steps(s + t)[j] == Steps(s)[j] || j + Steps(s + t)[j].len > |s| {
      AppendedStep(s, t, j);
    }
    ReachAppended(Steps(s), Steps(s + t), [], 0, k);
  }

  lemma BlockEnds(href: string, anchor: string)
    ensures var t := Block(href, anchor);
            t != [] && t[0] == '\n' && t[|t| - 1] == '>'
  {
    var back := "</a></p>\n<!-- /wp:paragraph -->";
    var front := "<!-- wp:paragraph -->\n<p>Read also: <a href=\"" + href + "\">" + anchor;
    assert BlockBody(href, anchor) == front + back;
    assert (front + back)[|front + back| - 1] == back[|back| - 1] == '>';
    assert ("\n" + BlockBody(href, anchor))[0] == '\n';
  }

  // ---- Cleanness ------------------------------------------------------------

  lemma EndsClosed(s: string)
    requires s != [] && s[|s| - 1] == '>'
    ensures Clean(s)
  {
    forall k | 0 <= k < |s| ensures '>' in s[k..] {
      assert s[k..][|s| - 1 - k] == '>';
    }
  }

  lemma WrapIsClean(s: string, a: nat, b: nat, open: string, close: string)
    requires a <= b <= |s| && Clean(s) && close != [] && close[|close| - 1] == '>'
    ensures Clean(Wrapped(s, a, b, open, close))
  {
    var u, n := Wrapped(s, a, b, open, close), |open| + |close|;
    assert u[b + n - 1] == close[|close| - 1];
    forall k | 0 <= k < |u| && TagStart(u[k..]) ensures '>' in u[k..] {
      if k < b + n {
        assert u[k..][b + n - 1 - k] == '>';
      } else {
        assert u[k..] == s[k - n..];
      }
    }
  }

  // ---- A placed link --------------------------------------------------------

  function LinkText(words: string, href: string): string { OpenTag(href) + words + CLOSE }

  /** This text stands here and no part of it is prose. */
  ghost predicate Stands(s: string, x: nat, t: string) {
    t != [] && TextAt(s, x, t) && forall k :: x <= k < x + |t| ==> !Prose(s, k)
  }

  lemma ProseMisses(s: string, a: nat, b: nat, x: nat, t: string)
    requires ProseSpan(Steps(s), a, b) && Stands(s, x, t)
    ensures x + |t| <= a || b <= x
  {
    var k := Max(a, x);
    assert a <= k < b ==> Prose(s, k);
  }

  lemma WrappedText(s: string, a: nat, b: nat, open: string, close: string)
    requires a <= b <= |s|
    ensures TextAt(Wrapped(s, a, b, open, close), a, open + s[a..b] + close)
  {
    var t := open + s[a..b] + close;
    assert Wrapped(s, a, b, open, close) == s[..a] + t + s[b..];
    assert (s[..a] + t)[a..] == t;
  }

  lemma NewLinkStands(s: string, a: nat, b: nat, href: string)
    requires ProseSpan(Steps(s), a, b) && '>' !in href && Clean(s)
    ensures Stands(Spliced(s, a, b, href), a, LinkText(s[a..b], href)) && Clean(Spliced(s, a, b, href))
  {
    CleanIsSettled(s, a, b);
    SpliceKeepsProse(s, a, b, href);
    WrapIsClean(s, a, b, OpenTag(href), CLOSE);
    var u, t := Spliced(s, a, b, href), LinkText(s[a..b], href);
    WrappedText(s, a, b, OpenTag(href), CLOSE);
    forall k | a <= k < a + |t| ensures !Prose(u, k) {
      assert !ProseAt(Steps(u), k);
    }
  }

  lemma SpliceLeavesStanding(s: string, a: nat, b: nat, href: string, x: nat, t: string)
    requires ProseSpan(Steps(s), a, b) && '>' !in href && Clean(s) && Stands(s, x, t)
    ensures Stands(Spliced(s, a, b, href), Moved(x, InText(a, b, href)), t)
  {
    CleanIsSettled(s, a, b);
    SpliceKeepsProse(s, a, b, href);
    ProseMisses(s, a, b, x, t);
    TextMoves(s, InText(a, b, href), x, t);
    var u, shift := Spliced(s, a, b, href), |OpenTag(href)| + |CLOSE|;
    var y := Moved(x, InText(a, b, href));
    forall k | y <= k < y + |t| ensures !Prose(u, k) {
      assert !Prose(s, if k < a then k else k - shift);
      assert k >= a ==> k - shift + (|u| - |s|) == k;
    }
  }

  lemma BlockLeavesStanding(s: string, href: string, anchor: string, x: nat, t: string)
    requires Clean(s) && Stands(s, x, t)
    ensures Stands(s + Block(href, anchor), x, t) && Clean(s + Block(href, anchor))
  {
    var block := Block(href, anchor);
    BlockEnds(href, anchor);
    EndsClosed(s + block);
    assert (s + block)[x..x + |t|] == s[x..x + |t|];
    forall k | x <= k < x + |t| ensures !Prose(s + block, k) {
      if Prose(s + block, k) { AppendedProse(s, block, k); }
    }
  }

  lemma EditLeavesStanding(s: string, e: Edit, gap: int, x: nat, t: string)
    requires Sound(s, e, gap) && Clean(s) && Stands(s, x, t)
    ensures Stands(Edited(s, e), Moved(x, e), t) && Clean(Edited(s, e))
  {
    match e
    case Present =>
    case InText(a, b, href) =>
      SpliceLeavesStanding(s, a, b, href, x, t);
      WrapIsClean(s, a, b, OpenTag(href), CLOSE);
    case Appended(href, anchor) => BlockLeavesStanding(s, href, anchor, x, t);
  }

  lemma EditIsClean(s: string, e: Edit, gap: int)
    requires Sound(s, e, gap) && Clean(s)
    ensures Clean(Edited(s, e))
  {
    match e
    case Present =>
    case InText(a, b, href) => WrapIsClean(s, a, b, OpenTag(href), CLOSE);
    case Appended(href, anchor) =>
      BlockEnds(href, anchor);
      EndsClosed(s + Block(href, anchor));
  }

  lemma {:induction false} RestLeavesStanding(find: Finder, cfg: Settings, page: Page, wishes: seq<Wish>, x: nat, t: string)
    requires Finds(find) && Clean(page.content) && Stands(page.content, x, t)
    ensures var edits := Edits(find, cfg, page, wishes);
            Stands(Final(page.content, edits), MovedAll(x, edits), t)
    decreases |wishes|
  {
    if wishes != [] {
      var e := Decide(find, cfg, page, wishes[0]);
      DecideSound(find, cfg, page, wishes[0]);
      EditLeavesStanding(page.content, e, cfg.gap, x, t);
      EditsFront(find, cfg, page, wishes);
      RestLeavesStanding(find, cfg, Turn(find, cfg, page, wishes[0]), wishes[1..], Moved(x, e), t);
    }
  }

  lemma FirstStands(find: Finder, cfg: Settings, page: Page, wishes: seq<Wish>)
    requires Finds(find) && Clean(page.content) && wishes != [] && Decide(find, cfg, page, wishes[0]).InText?
    ensures var edits := Edits(find, cfg, page, wishes);
      var e := edits[0];
      && e.InText? && e.start <= e.end <= |page.content|
      && Stands(Final(page.content, edits), MovedAll(e.start, edits[1..]), LinkText(page.content[e.start..e.end], e.href))
  {
    var e := Decide(find, cfg, page, wishes[0]);
    DecideSound(find, cfg, page, wishes[0]);
    NewLinkStands(page.content, e.start, e.end, e.href);
    EditsFront(find, cfg, page, wishes);
    RestLeavesStanding(find, cfg, Turn(find, cfg, page, wishes[0]), wishes[1..], e.start,
                       LinkText(page.content[e.start..e.end], e.href));
  }

  lemma TurnIsClean(find: Finder, cfg: Settings, page: Page, w: Wish)
    requires Finds(find) && Clean(page.content)
    ensures Clean(Turn(find, cfg, page, w).content)
  {
    DecideSound(find, cfg, page, w);
    EditIsClean(page.content, Decide(find, cfg, page, w), cfg.gap);
  }

  /** The link of the edit at `i` stands in the final post exactly as it was placed. */
  ghost predicate KeepsLink(content: string, edits: seq<Edit>, i: nat) {
    && i < |edits| && edits[i].InText?
    && var before := Final(content, edits[..i]);
       var e := edits[i];
       && e.start < e.end <= |before|
       && Stands(Final(content, edits), MovedAll(e.start, edits[i + 1..]), LinkText(before[e.start..e.end], e.href))
  }

  lemma KeepsLinkLater(content: string, edits: seq<Edit>, i: nat, next: string, later: seq<Edit>)
    requires 0 < i < |edits| && next == Edited(content, edits[0]) && later == edits[1..]
    ensures KeepsLink(next, later, i - 1) ==> KeepsLink(content, edits, i)
  {
    LaterEdits(content, edits, i);
  }

  /** The same, one edit after the other. */
  ghost predicate KeptFrom(content: string, edits: seq<Edit>, i: nat)
    decreases i
  {
    i < |edits| && if i == 0 then KeepsLink(content, edits, 0) else KeptFrom(Edited(content, edits[0]), edits[1..], i - 1)
  }

  lemma {:induction false} KeptIsKept(content: string, edits: seq<Edit>, i: nat)
    requires KeptFrom(content, edits, i)
    ensures KeepsLink(content, edits, i)
    decreases i
  {
    if i > 0 {
      KeptIsKept(Edited(content, edits[0]), edits[1..], i - 1);
      KeepsLinkLater(content, edits, i, Edited(content, edits[0]), edits[1..]);
    }
  }

  lemma FirstKeepsLink(find: Finder, cfg: Settings, page: Page, wishes: seq<Wish>)
    requires Finds(find) && Clean(page.content) && wishes != [] && Edits(find, cfg, page, wishes)[0].InText?
    ensures KeepsLink(page.content, Edits(find, cfg, page, wishes), 0)
  {
    EditsFront(find, cfg, page, wishes);
    DecideSound(find, cfg, page, wishes[0]);
    FirstStands(find, cfg, page, wishes);
    assert Edits(find, cfg, page, wishes)[..0] == [];
  }

  lemma AfterFirst(find: Finder, cfg: Settings, page: Page, wishes: seq<Wish>, edits: seq<Edit>, next: Page)
    requires Finds(find) && Clean(page.content) && wishes != [] && edits == Edits(find, cfg, page, wishes)
    requires next == Turn(find, cfg, page, wishes[0])
    ensures |edits| == |wishes| && next.content == Edited(page.content, edits[0]) && Clean(next.content)
    ensures edits[1..] == Edits(find, cfg, next, wishes[1..])
  {
    EditsFront(find, cfg, page, wishes);
    TurnIsClean(find, cfg, page, wishes[0]);
  }

  lemma {:induction false} EachStands(find: Finder, cfg: Settings, page: Page, wishes: seq<Wish>, edits: seq<Edit>, i: nat)
    requires Finds(find) && Clean(page.content) && edits == Edits(find, cfg, page, wishes)
    requires i < |edits| && edits[i].InText?
    ensures KeptFrom(page.content, edits, i)
    decreases |wishes|
  {
    if i == 0 {
      FirstKeepsLink(find, cfg, page, wishes);
    } else {
      var next := Turn(find, cfg, page, wishes[0]);
      AfterFirst(find, cfg, page, wishes, edits, next);
      EachStands(find, cfg, next, wishes[1..], edits[1..], i - 1);
    }
  }

  /** On clean content every in-text link stands in the final post exactly as it was placed,
      opening tag, words and closing tag together, and outside all prose: no later link of
      the list is inside it or across its edges. */
  lemma LinksStand(find: Finder, cfg: Settings, page: Page, wishes: seq<Wish>, i: nat)
    requires Finds(find) && Clean(page.content) && i < |wishes| && Edits(find, cfg, page, wishes)[i].InText?
    ensures KeepsLink(page.content, Edits(find, cfg, page, wishes), i)
  {
    EachStands(find, cfg, page, wishes, Edits(find, cfg, page, wishes), i);
    KeptIsKept(page.content, Edits(find, cfg, page, wishes), i);
  }

  // ---- Content with a tag left open -----------------------------------------

  lemma ParagraphLeftOpen(open: string)
    requires OneTag(open) && open[|open| - 2] != '/'
    ensures MarkOf("<p " + open) == Opens("p")
  {
    var m := "<p " + open;
    assert m[0] == '<' && m[1] == 'p' && m[2] == ' ' && m[|m| - 2] == open[|open| - 2];
    assert Name(m[1..][1..]) == [];
    assert Name(m[1..]) == "p";
    assert Lower("p") == "p";
  }

  /** A pattern for anchors of one character: every place it occurs. */
  function Places(s: string, c: char, from: nat): (r: seq<Span>)
    ensures forall i :: 0 <= i < |r| ==> r[i].start < r[i].end <= |s|
    decreases |s| - from
  {
    if from >= |s| then [] else (if s[from] == c then [Span(from, from + 1)] else []) + Places(s, c, from + 1)
  }

  function FindChar(s: string, anchor: string): seq<Span> { if anchor == "" then [] else Places(s, anchor[0], 0) }

  lemma {:induction false} OnlyPlace(s: string, c: char, from: nat, k: nat)
    requires k < |s| && forall i :: 0 <= i < |s| ==> (s[i] == c <==> i == k)
    ensures Places(s, c, from) == if from <= k then [Span(k, k + 1)] else []
    decreases |s| - from
  {
    if from < |s| { OnlyPlace(s, c, from + 1, k); }
  }

  lemma {:induction false} NoShortcodes(s: string, from: nat)
    requires '[' !in s
    ensures Shortcodes(s, from) == []
    decreases |s| - from
  {
    if from < |s| { NoShortcodes(s, from + 1); }
  }

  lemma UsableAt(s: string, k: nat)
    requires '[' !in s && k < |s| && Prose(s, k)
    ensures Usable(s, Span(k, k + 1))
  {
    NoShortcodes(s, 0);
  }

  lemma OnlyUsable(s: string, found: seq<Span>, sp: Span)
    requires found == [sp] && Usable(s, sp)
    ensures UsableSpans(s, found) == [sp]
  {
    assert found[0] == sp && |found| == 1;
    FilterOne((x: Span) => Usable(s, x), found, sp);
  }

  lemma AnchoredAt(s: string, k: nat)
    requires '[' !in s && k < |s| && Prose(s, k) && forall i :: 0 <= i < |s| ==> (s[i] == 'w' <==> i == k)
    ensures AnchorSpan(FindChar, s, "w") == Some(Span(k, k + 1))
  {
    OnlyPlace(s, 'w', 0, k);
    UsableAt(s, k);
    OnlyUsable(s, FindChar(s, "w"), Span(k, k + 1));
  }

  /** With the distance guard off and room under the cap, the anchor's span is where it goes. */
  lemma PlacedAt(page: Page, k: nat, w: Wish)
    requires w.target !in page.existing && w.anchor == "w" && Count(page.content) < 3
    requires AnchorSpan(FindChar, page.content, "w") == Some(Span(k, k + 1))
    ensures Decide(FindChar, Settings(3, 0), page, w) == InText(k, k + 1, Escape(w.target))
  {
    assert page.content[0..] == page.content;
    MarkListLength(page.content, 0);
  }

  lemma OneLetter(c: char)
    requires c != '&' && c != '<' && c != '>' && c != '"' && c != '\''
    ensures Escape([c]) == [c]
  {
    assert [c][1..] == [];
    assert Escape([]) == [];
  }

  lemma OpenHasNo(href: string)
    requires 'w' !in href && '[' !in href
    ensures 'w' !in OpenTag(href) && '[' !in OpenTag(href)
  {
    OpenParts(href);
    assert 'w' !in FRONT && '[' !in FRONT;
  }

  /** Where the anchor goes in a post with one `w`, which is prose. */
  lemma GoesAt(page: Page, k: nat, w: Wish)
    requires w.target !in page.existing && w.anchor == "w" && Count(page.content) < 3 && '[' !in page.content
    requires k < |page.content| && Prose(page.content, k)
    requires forall i :: 0 <= i < |page.content| ==> (page.content[i] == 'w' <==> i == k)
    ensures Decide(FindChar, Settings(3, 0), page, w) == InText(k, k + 1, Escape(w.target))
  {
    AnchoredAt(page.content, k);
    PlacedAt(page, k, w);
  }

  lemma FirstPost(s: string)
    requires s == "<p w"
    ensures Prose(s, 3) && Count(s) == 0
  {
    NoTagsHere(s);
    CountNone(s);
  }

  lemma SecondPost(s: string, u: string, open: string)
    requires s == "<p w" && u == Spliced(s, 3, 4, "x") && open == OpenTag("x")
    ensures u == "<p " + open + "w</a>" && Prose(u, 3 + |open|) && Count(u) < 3
    ensures '[' !in u && forall i :: 0 <= i < |u| ==> (u[i] == 'w' <==> i == 3 + |open|)
  {
    FirstLink(s, u);
    FirstPost(s);
    SpliceCounts(s, 3, 4, "x");
    OpenHasNo("x");
    OnlyW(u, open);
  }

  /** Without that condition, and with the distance guard off, a later link can land inside an
      earlier one: after a `<p` that nothing closes, the words of a new link are still prose. */
  lemma LinkInsideLink() returns (page: Page, wishes: seq<Wish>)
    ensures Finds(FindChar) && |wishes| == 2
    ensures Edits(FindChar, Settings(3, 0), page, wishes) ==
            [InText(3, 4, "x"), InText(3 + |OpenTag("x")|, 4 + |OpenTag("x")|, "y")]
    ensures Final(page.content, Edits(FindChar, Settings(3, 0), page, wishes)) ==
            "<p " + OpenTag("x") + OpenTag("y") + "w" + CLOSE + CLOSE
  {
    var s, open := "<p w", OpenTag("x");
    var u := Spliced(s, 3, 4, "x");
    page, wishes := Page(s, {}), [Wish("x", "w", ""), Wish("y", "w", "")];
    FirstPost(s);
    GoesAt(page, 3, wishes[0]);
    OneLetter('x');
    SecondPost(s, u, open);
    GoesAt(Page(u, {} + {"x"}), 3 + |open|, wishes[1]);
    OneLetter('y');
    TwoTurns(page, wishes[0], wishes[1], InText(3, 4, "x"), InText(3 + |open|, 4 + |open|, "y"), Page(u, {} + {"x"}));
    NestedText(u);
  }

  lemma TwoTurns(page: Page, v: Wish, w: Wish, e: Edit, g: Edit, next: Page)
    requires Decide(FindChar, Settings(3, 0), page, v) == e && next == Turn(FindChar, Settings(3, 0), page, v)
    requires Decide(FindChar, Settings(3, 0), next, w) == g
    ensures Edits(FindChar, Settings(3, 0), page, [v, w]) == [e, g]
    ensures Final(page.content, [e, g]) == Edited(next.content, g)
  {
    assert [v, w][1..] == [w] && [w][1..] == [];
    assert Edits(FindChar, Settings(3, 0), next, [w]) == [g];
    TwoEdits(page.content, e, g);
  }

  lemma TwoEdits(s: string, e: Edit, g: Edit)
    ensures Final(s, [e, g]) == Edited(Edited(s, e), g)
  {
    assert [e, g][1..] == [g] && [g][1..] == [];
    assert Final(Edited(s, e), [g]) == Final(Edited(Edited(s, e), g), []);
  }

  /** The words of the first link are prose again. */
  lemma FirstLink(s: string, u: string)
    requires s == "<p w" && u == Spliced(s, 3, 4, "x")
    ensures u == "<p " + OpenTag("x") + "w</a>" && Prose(u, 3 + |OpenTag("x")|)
  {
    OpenIsTag("x");
    assert s[..3] == "<p " && s[3..4] == "w" && s[4..] == "";
    SwallowedOpen(u, OpenTag("x"));
  }

  lemma OnlyW(u: string, open: string)
    requires u == "<p " + open + "w</a>" && 'w' !in open && '[' !in open
    ensures forall i :: 0 <= i < |u| ==> (u[i] == 'w' <==> i == 3 + |open|)
    ensures '[' !in u
  {
    forall i | 0 <= i < |u| ensures (u[i] == 'w' <==> i == 3 + |open|) && u[i] != '[' {
      if 3 <= i < 3 + |open| { assert u[i] == open[i - 3]; }
    }
  }

  lemma NestedText(u: string)
    requires u == "<p " + OpenTag("x") + "w</a>"
    ensures Spliced(u, 3 + |OpenTag("x")|, 4 + |OpenTag("x")|, "y") == "<p " + OpenTag("x") + OpenTag("y") + "w" + CLOSE + CLOSE
  {
    var k := 3 + |OpenTag("x")|;
    assert u[..k] == "<p " + OpenTag("x") && u[k..k + 1] == "w" && u[k + 1..] == "</a>";
  }

  lemma NoTagsHere(s: string)
    requires s != [] && '>' !in s
    ensures forall k :: 0 <= k < |s| ==> Prose(s, k)
  {
    assert s[0..] == s;
    forall j | 0 <= j < |s| ensures Steps(s)[j].len == 0 { NothingMatches(s, 0, j); }
    forall k | 0 <= k < |s| ensures Prose(s, k) { TailIsUniform(Steps(s), 0, [], k); }
  }

  lemma SwallowedOpen(u: string, open: string)
    requires OneTag(open) && open[|open| - 2] != '/' && u == "<p " + open + "w</a>"
    ensures ProseSpan(Steps(u), 3 + |open|, 4 + |open|)
  {
    var n := 3 + |open|;
    ParagraphLeftOpen(open);
    JoinedTag("<p ", open, "w</a>");
    assert u[0..] == u;
    StepsFrom(u, 0, u);
    TagStep(Steps(u), 0, n, Opens("p"), []);
    assert u[n..] == "w</a>";
    StepsFrom(u, n, "w</a>");
    assert After([], Opens("p")) == ["p"];
    assert Allowed(["p"]) by { assert "p" in ["p"] && "p" in SPLICE_TEXT; }
  }
}
