/** Where a link goes, and the rendering of a whole list of suggestions into one post. */
module LinkPlacement {
  import opened Prelude
  import opened HtmlScanner
  import opened ProseRegions
  import opened LinkSplice
  import opened InTextMarks

  /** `publish_max_in_text_links_per_article` and `publish_min_in_text_gap_chars`. */
  datatype Settings = Settings(cap: int, gap: int)

  /** A suggestion as rendering sees it; `anchor` is empty when none was stored. */
  datatype Wish = Wish(target: string, anchor: string, title: string)

  /** The matches of an anchor's pattern in some content, left to right. */
  type Finder = (string, string) -> seq<Span>

  ghost predicate Finds(find: Finder) {
    forall s, anchor, i :: anchor != "" && 0 <= i < |find(s, anchor)| ==>
      find(s, anchor)[i].start < find(s, anchor)[i].end <= |s|
  }

  // ---- The position ---------------------------------------------------------

  function NextBracket(s: string, from: nat): (r: Option<nat>)
    ensures r.Some? ==> from <= r.value < |s| && s[r.value] == ']'
    ensures forall j :: from <= j < |s| && s[j] == ']' ==> r.Some? && r.value <= j
    decreases |s| - from
  {
    if from >= |s| then None else if s[from] == ']' then Some(from) else NextBracket(s, from + 1)
  }

  /** `[`, anything but `]`, and the `]` after it. */
  function Shortcodes(s: string, from: nat): seq<Span>
    decreases |s| - from
  {
    if from >= |s| then []
    else if s[from] == '[' && NextBracket(s, from + 1).Some? then
      var end := NextBracket(s, from + 1).value + 1;
      [Span(from, end)] + Shortcodes(s, end)
    else Shortcodes(s, from + 1)
  }

  predicate ClearOf(spans: seq<Span>, sp: Span) {
    forall i :: 0 <= i < |spans| ==> !(spans[i].start < sp.end && sp.start < spans[i].end)
  }

  /** Prose throughout, and clear of every shortcode. */
  predicate Usable(content: string, sp: Span) {
    && (forall k :: sp.start <= k < sp.end ==> ProseAt(Steps(content), k))
    && ClearOf(Shortcodes(content, 0), sp)
  }

  function UsableSpans(content: string, found: seq<Span>): seq<Span> {
    Filter((sp: Span) => Usable(content, sp), found)
  }

  /** The single span an anchor can be linked at, if there is exactly one. */
  function AnchorSpan(find: Finder, content: string, anchor: string): Option<Span> {
    var spans := UsableSpans(content, find(content, anchor));
    if |spans| == 1 then Some(spans[0]) else None
  }

  /** `_anchor_span`, by way of the regions. */
  method FindAnchor(find: Finder, content: string, anchor: string) returns (span: Option<Span>)
    requires Finds(find) && anchor != ""
    ensures span == AnchorSpan(find, content, anchor)
  {
    var regions := Regions(content);
    var shortcodes := Shortcodes(content, 0);
    var found := find(content, anchor);
    var spans: seq<Span> := [];
    for i := 0 to |found|
      invariant spans == UsableSpans(content, found[..i])
    {
      InOneRegionIsProse(Steps(content), regions, found[i].start, found[i].end);
      if InOneRegion(regions, found[i].start, found[i].end) && ClearOf(shortcodes, found[i]) {
        spans := spans + [found[i]];
      }
      FilterAppend((sp: Span) => Usable(content, sp), found[..i], [found[i]]);
      assert found[..i + 1] == found[..i] + [found[i]];
    }
    assert found[..|found|] == found;
    span := if |spans| == 1 then Some(spans[0]) else None;
  }

  /** There is exactly one index whose element satisfies `p`, and that element is `x`. */
  ghost predicate OnlyOne<T>(p: T -> bool, xs: seq<T>, x: T) {
    exists i :: 0 <= i < |xs| && xs[i] == x && p(x) && forall j :: 0 <= j < |xs| && j != i ==> !p(xs[j])
  }

  lemma {:induction false} FilterNone<T>(p: T -> bool, xs: seq<T>)
    ensures Filter(p, xs) == [] <==> forall j :: 0 <= j < |xs| ==> !p(xs[j])
  {
    if xs != [] {
      FilterNone(p, xs[1..]);
      assert forall j :: 1 <= j < |xs| ==> xs[j] == xs[1..][j - 1];
    }
  }

  lemma {:induction false} FilterOne<T>(p: T -> bool, xs: seq<T>, x: T)
    ensures Filter(p, xs) == [x] <==> OnlyOne(p, xs, x)
  {
    if xs != [] {
      var rest := xs[1..];
      assert forall j :: 1 <= j < |xs| ==> xs[j] == rest[j - 1];
      FilterOne(p, rest, x);
      FilterNone(p, rest);
      if p(xs[0]) {
        if OnlyOne(p, xs, x) { assert xs[0] == x; }
      } else {
        if OnlyOne(p, rest, x) {
          var i :| 0 <= i < |rest| && rest[i] == x && p(x) && forall j :: 0 <= j < |rest| && j != i ==> !p(rest[j]);
          assert xs[i + 1] == x;
        }
        if OnlyOne(p, xs, x) {
          var i :| 0 <= i < |xs| && xs[i] == x && p(x) && forall j :: 0 <= j < |xs| && j != i ==> !p(xs[j]);
          assert rest[i - 1] == x;
        }
      }
    }
  }

  /** The chosen span is the only match of the anchor that is prose throughout and clear of
      every shortcode; with none or several there is no choice. */
  lemma AnchorSpanExact(find: Finder, content: string, anchor: string, sp: Span)
    ensures AnchorSpan(find, content, anchor) == Some(sp) <==>
      OnlyOne((x: Span) => Usable(content, x), find(content, anchor), sp)
  {
    FilterOne((x: Span) => Usable(content, x), find(content, anchor), sp);
    if AnchorSpan(find, content, anchor) == Some(sp) { assert UsableSpans(content, find(content, anchor)) == [sp]; }
  }

  /** `_crowds_existing_link` */
  predicate Crowds(content: string, sp: Span, gap: int) {
    gap > 0 && exists p :: p in MarkList(content, 0) && sp.start - gap < p < sp.end + gap
  }

  // ---- One suggestion -------------------------------------------------------

  datatype Page = Page(content: string, existing: set<string>)

  datatype Edit = Present | InText(start: nat, end: nat, href: string) | Appended(href: string, anchor: string)

  datatype Outcome = AlreadyPresent | Inserted | BlockAdded

  function OutcomeOf(e: Edit): Outcome {
    match e case Present => AlreadyPresent case InText(_, _, _) => Inserted case Appended(_, _) => BlockAdded
  }

  /** `_insert_link` up to its choice. */
  function Placement(find: Finder, cfg: Settings, content: string, w: Wish): Edit {
    var atLimit := |MarkList(content, 0)| >= cfg.cap;
    var span := if w.anchor != "" && !atLimit then AnchorSpan(find, content, w.anchor) else None;
    if span.Some? && !Crowds(content, span.value, cfg.gap)
    then InText(span.value.start, span.value.end, Escape(w.target))
    else Appended(Escape(w.target), Escape(if w.anchor != "" then w.anchor else w.title))
  }

  function Decide(find: Finder, cfg: Settings, page: Page, w: Wish): Edit {
    if w.target in page.existing then Present else Placement(find, cfg, page.content, w)
  }

  function Edited(content: string, e: Edit): string {
    match e
    case Present => content
    case InText(a, b, href) => if a <= b <= |content| then Spliced(content, a, b, href) else content
    case Appended(href, anchor) => content + Block(href, anchor)
  }

  function Turn(find: Finder, cfg: Settings, page: Page, w: Wish): Page {
    Page(Edited(page.content, Decide(find, cfg, page, w)), page.existing + {w.target})
  }

  // ---- The whole list -------------------------------------------------------

  function Edits(find: Finder, cfg: Settings, page: Page, wishes: seq<Wish>): (r: seq<Edit>)
    ensures |r| == |wishes|
    decreases |wishes|
  {
    if wishes == [] then []
    else [Decide(find, cfg, page, wishes[0])] + Edits(find, cfg, Turn(find, cfg, page, wishes[0]), wishes[1..])
  }

  function Final(content: string, edits: seq<Edit>): string
    decreases |edits|
  {
    if edits == [] then content else Final(Edited(content, edits[0]), edits[1..])
  }

  function Outcomes(edits: seq<Edit>): (r: seq<Outcome>)
    ensures |r| == |edits| && forall i :: 0 <= i < |edits| ==> r[i] == OutcomeOf(edits[i])
  {
    if edits == [] then [] else [OutcomeOf(edits[0])] + Outcomes(edits[1..])
  }

  datatype Preview = Preview(original: string, rendered: string, outcomes: seq<Outcome>)

  predicate Blank(s: string) { forall i :: 0 <= i < |s| ==> Space(s[i]) }

  function FirstPage(hrefs: string -> set<string>, content: string): Page {
    Page(content, if Blank(content) then {} else hrefs(content))
  }

  /** The post and the outcomes once the rest of the list is rendered too. */
  function Rendered(find: Finder, cfg: Settings, page: Page, wishes: seq<Wish>, outcomes: seq<Outcome>)
    : (string, seq<Outcome>)
  {
    var edits := Edits(find, cfg, page, wishes);
    (Final(page.content, edits), outcomes + Outcomes(edits))
  }

  lemma RenderStep(find: Finder, cfg: Settings, page: Page, wishes: seq<Wish>, i: nat, outcomes: seq<Outcome>)
    requires i < |wishes|
    ensures var e := Decide(find, cfg, page, wishes[i]);
      Rendered(find, cfg, page, wishes[i..], outcomes) ==
      Rendered(find, cfg, Turn(find, cfg, page, wishes[i]), wishes[i + 1..], outcomes + [OutcomeOf(e)])
    ensures wishes[i].target in page.existing ==> Turn(find, cfg, page, wishes[i]) == page
  {
    var e, next := Decide(find, cfg, page, wishes[i]), Turn(find, cfg, page, wishes[i]);
    var later := Edits(find, cfg, next, wishes[i + 1..]);
    assert wishes[i..][0] == wishes[i] && wishes[i..][1..] == wishes[i + 1..];
    assert Edits(find, cfg, page, wishes[i..]) == [e] + later;
    assert ([e] + later)[1..] == later;
    assert outcomes + ([OutcomeOf(e)] + Outcomes(later)) == (outcomes + [OutcomeOf(e)]) + Outcomes(later);
    if wishes[i].target in page.existing { assert page.existing + {wishes[i].target} == page.existing; }
  }

  /** `preview_links`; `read` is the post's raw content, when it can be read. */
  method PreviewLinks(find: Finder, cfg: Settings, hrefs: string -> set<string>, read: Option<string>, wishes: seq<Wish>)
    returns (r: Option<Preview>)
    ensures wishes == [] ==> r == Some(Preview("", "", []))
    ensures wishes != [] && read.None? ==> r == None
    ensures wishes != [] && read.Some? ==>
      var edits := Edits(find, cfg, FirstPage(hrefs, read.value), wishes);
      r == Some(Preview(read.value, Final(read.value, edits), Outcomes(edits)))
  {
    if wishes == [] { return Some(Preview("", "", [])); }
    if read.None? { return None; }
    var content := read.value;
    var existing := if Blank(content) then {} else hrefs(content);
    var outcomes: seq<Outcome> := [];
    ghost var edits := Edits(find, cfg, FirstPage(hrefs, content), wishes);
    assert wishes[0..] == wishes && [] + Outcomes(edits) == Outcomes(edits);
    for i := 0 to |wishes|
      invariant Rendered(find, cfg, Page(content, existing), wishes[i..], outcomes) == (Final(read.value, edits), Outcomes(edits))
    {
      RenderStep(find, cfg, Page(content, existing), wishes, i, outcomes);
      var target := wishes[i].target;
      if target in existing {
        outcomes := outcomes + [AlreadyPresent];
      } else {
        var edit := Placement(find, cfg, content, wishes[i]);
        content := Edited(content, edit);
        existing := existing + {target};
        outcomes := outcomes + [OutcomeOf(edit)];
      }
    }
    assert wishes[|wishes|..] == [];
    assert outcomes + [] == outcomes;
    return Some(Preview(read.value, content, outcomes));
  }

  // ---- Outcomes -------------------------------------------------------------

  predicate TargetedBefore(wishes: seq<Wish>, i: nat, target: string) {
    exists j :: 0 <= j < i && j < |wishes| && wishes[j].target == target
  }

  lemma TargetedLater(wishes: seq<Wish>, i: nat, target: string)
    requires 0 < i < |wishes|
    ensures TargetedBefore(wishes, i, target) <==> wishes[0].target == target || TargetedBefore(wishes[1..], i - 1, target)
  {
    if TargetedBefore(wishes[1..], i - 1, target) {
      var j :| 0 <= j < i - 1 && wishes[1..][j].target == target;
      assert wishes[j + 1].target == target;
    }
    if TargetedBefore(wishes, i, target) && wishes[0].target != target {
      var j :| 0 <= j < i && wishes[j].target == target;
      assert wishes[1..][j - 1].target == target;
    }
  }

  /** A suggestion finds its target present exactly when the post linked it already or an
      earlier suggestion of the list asked for it. */
  lemma {:induction false} PresentExactly(find: Finder, cfg: Settings, page: Page, wishes: seq<Wish>, i: nat)
    requires i < |wishes|
    ensures Edits(find, cfg, page, wishes)[i].Present? <==>
      wishes[i].target in page.existing || TargetedBefore(wishes, i, wishes[i].target)
    decreases |wishes|
  {
    if i > 0 {
      PresentExactly(find, cfg, Turn(find, cfg, page, wishes[0]), wishes[1..], i - 1);
      TargetedLater(wishes, i, wishes[i].target);
      assert wishes[1..][i - 1] == wishes[i];
    }
  }

  /** Each target gains at most one link, and none when the post linked it already. */
  lemma OneLinkPerTarget(find: Finder, cfg: Settings, page: Page, wishes: seq<Wish>, i: nat, j: nat)
    requires i < j < |wishes| && wishes[i].target == wishes[j].target
    ensures Edits(find, cfg, page, wishes)[j].Present?
    ensures wishes[i].target in page.existing ==> Edits(find, cfg, page, wishes)[i].Present?
  {
    PresentExactly(find, cfg, page, wishes, i);
    PresentExactly(find, cfg, page, wishes, j);
  }

  // ---- Undoing --------------------------------------------------------------

  predicate Fits(content: string, e: Edit) { e.InText? ==> e.start < e.end <= |content| }

  function Undone(content: string, e: Edit): string {
    match e
    case Present => content
    case InText(a, b, href) =>
      var n := |OpenTag(href)|;
      if a <= b && b + n + |CLOSE| <= |content|
      then content[..a] + content[a + n..b + n] + content[b + n + |CLOSE|..] else content
    case Appended(href, anchor) =>
      if |Block(href, anchor)| <= |content| then content[..|content| - |Block(href, anchor)|] else content
  }

  /** The edits taken back, last first. */
  function UndoAll(content: string, edits: seq<Edit>): string {
    if edits == [] then content else Undone(UndoAll(content, edits[1..]), edits[0])
  }

  lemma UndoWrap(s: string, a: nat, b: nat, open: string, close: string)
    requires a <= b <= |s|
    ensures var u := Wrapped(s, a, b, open, close);
      u[..a] + u[a + |open|..b + |open|] + u[b + |open| + |close|..] == s
  {
    var u := Wrapped(s, a, b, open, close);
    assert u[..a] == s[..a] && u[a + |open|..b + |open|] == s[a..b] && u[b + |open| + |close|..] == s[b..];
  }

  lemma UndoEdit(content: string, e: Edit)
    requires Fits(content, e)
    ensures Undone(Edited(content, e), e) == content
  {
    match e
    case Present =>
    case InText(a, b, href) => UndoWrap(content, a, b, OpenTag(href), CLOSE);
    case Appended(href, anchor) =>
      assert (content + Block(href, anchor))[..|content|] == content;
  }

  lemma DecideFits(find: Finder, cfg: Settings, page: Page, w: Wish)
    requires Finds(find)
    ensures Fits(page.content, Decide(find, cfg, page, w))
    ensures var e := Decide(find, cfg, page, w);
      e.InText? ==> (&& ProseSpan(Steps(page.content), e.start, e.end) && e.href == Escape(w.target)
                     && Count(page.content) < cfg.cap && !Crowds(page.content, Span(e.start, e.end), cfg.gap))
  {
    var e := Decide(find, cfg, page, w);
    if e.InText? {
      var sp := AnchorSpan(find, page.content, w.anchor).value;
      AnchorSpanExact(find, page.content, w.anchor, sp);
      MarkListLength(page.content, 0);
      assert page.content[0..] == page.content;
    }
  }

  /** Taking the insertions back, last first, gives the original post. */
  lemma {:induction false} UndoRestores(find: Finder, cfg: Settings, page: Page, wishes: seq<Wish>)
    requires Finds(find)
    ensures var edits := Edits(find, cfg, page, wishes);
            UndoAll(Final(page.content, edits), edits) == page.content
    decreases |wishes|
  {
    if wishes != [] {
      DecideFits(find, cfg, page, wishes[0]);
      UndoEdit(page.content, Decide(find, cfg, page, wishes[0]));
      var next := Turn(find, cfg, page, wishes[0]);
      UndoRestores(find, cfg, next, wishes[1..]);
      assert Edits(find, cfg, page, wishes)[1..] == Edits(find, cfg, next, wishes[1..]);
    }
  }
}
