/** What holds of a post after a whole list of suggestions: the cap on in-text links, the
    distance between them, and that no later link touches an earlier one. */
module LinkBatch {
  import opened Prelude
  import opened HtmlScanner
  import opened ProseRegions
  import opened LinkSplice
  import opened InTextMarks
  import opened LinkPlacement

  // ---- The cap --------------------------------------------------------------

  lemma CloseHoldsNoMark()
    ensures Count(CLOSE) == 0
  {
    CountNone(CLOSE);
  }

  lemma OpenCountsOne(href: string)
    requires '"' !in href
    ensures Count(OpenTag(href)) == 1
  {
    var m := OpenTag(href);
    OpenHoldsOneMark(href, 3);
    forall p: nat ensures MarkAt(m, p) <==> p == 3 { OpenHoldsOneMark(href, p); }
    CountSkips(m, 0, 3);
    CountNext(m, 3);
    CountSkips(m, 4, |m|);
    assert m[0..] == m && m[|m|..] == [];
  }

  lemma BlockCountsNone(href: string, anchor: string)
    requires '"' !in href && '"' !in anchor
    ensures Count(Block(href, anchor)) == 0
  {
    forall p: nat ensures !MarkAt(Block(href, anchor), p) { BlockHoldsNoMark(href, anchor, p); }
    CountNone(Block(href, anchor));
  }

  predicate Parting(t: string) { t != [] && t[0] !in MARK && t[|t| - 1] !in MARK }

  lemma TagsPart(tag: string)
    requires OneTag(tag)
    ensures Parting(tag)
  {
    assert '<' !in MARK && '>' !in MARK;
  }

  lemma CountAround(x: string, o: string, y: string)
    requires Parting(o)
    ensures Count(x + o + y) == Count(x) + Count(o) + Count(y)
  {
    CountJoin(x, o);
    assert (x + o)[|x + o| - 1] == o[|o| - 1];
    CountJoin(x + o, y);
  }

  lemma WrapParts(s: string, a: nat, b: nat, open: string, close: string)
    requires a <= b <= |s|
    ensures Wrapped(s, a, b, open, close) == s[..a] + open + (s[a..b] + close + s[b..])
    ensures s == s[..a] + (s[a..b] + s[b..])
  {
  }

  /** A tag put around some words adds its own marks, and can only part others. */
  lemma WrapCounts(s: string, a: nat, b: nat, open: string, close: string)
    requires a <= b <= |s| && Parting(open) && Parting(close)
    ensures Count(Wrapped(s, a, b, open, close)) <= Count(s) + Count(open) + Count(close)
  {
    WrapParts(s, a, b, open, close);
    CountAround(s[..a], open, s[a..b] + close + s[b..]);
    CountAround(s[a..b], close, s[b..]);
    CountJoin(s[..a], s[a..b] + s[b..]);
    CountJoin(s[a..b], s[b..]);
  }

  lemma SpliceCounts(s: string, a: nat, b: nat, href: string)
    requires a <= b <= |s| && '"' !in href && '>' !in href
    ensures Count(Spliced(s, a, b, href)) <= Count(s) + 1
  {
    OpenIsTag(href);
    CloseIsTag();
    TagsPart(OpenTag(href));
    TagsPart(CLOSE);
    OpenCountsOne(href);
    CloseHoldsNoMark();
    WrapCounts(s, a, b, OpenTag(href), CLOSE);
  }

  lemma BlockCounts(s: string, href: string, anchor: string)
    requires '"' !in href && '"' !in anchor
    ensures Count(s + Block(href, anchor)) == Count(s)
  {
    BlockCountsNone(href, anchor);
    BlockParts(s, href, anchor);
    CountJoin(s, Block(href, anchor));
  }

  lemma BlockParts(s: string, href: string, anchor: string)
    ensures Parted(s, Block(href, anchor)) && Block(href, anchor)[0] == '\n'
  {
    assert Block(href, anchor) == "\n" + BlockBody(href, anchor);
    assert '\n' !in MARK;
  }

  lemma EditCounts(find: Finder, cfg: Settings, page: Page, w: Wish)
    requires Finds(find)
    ensures var before, after := Count(page.content), Count(Turn(find, cfg, page, w).content);
            after <= before || (after <= before + 1 && before < cfg.cap)
  {
    var e := Decide(find, cfg, page, w);
    DecideFits(find, cfg, page, w);
    match e {
      case Present =>
      case InText(a, b, href) => SpliceCounts(page.content, a, b, href);
      case Appended(href, anchor) => BlockCounts(page.content, href, anchor);
    }
  }

  /** However many suggestions are rendered, the in-text links of the post never exceed both
      what it had and the configured cap. */
  lemma {:induction false} InTextCap(find: Finder, cfg: Settings, page: Page, wishes: seq<Wish>)
    requires Finds(find)
    ensures Count(Final(page.content, Edits(find, cfg, page, wishes))) <= Max(Count(page.content), cfg.cap)
    decreases |wishes|
  {
    if wishes != [] {
      var next := Turn(find, cfg, page, wishes[0]);
      EditCounts(find, cfg, page, wishes[0]);
      InTextCap(find, cfg, next, wishes[1..]);
      EditsFront(find, cfg, page, wishes);
    }
  }

  lemma EditsFront(find: Finder, cfg: Settings, page: Page, wishes: seq<Wish>)
    requires wishes != []
    ensures var edits := Edits(find, cfg, page, wishes);
      && edits[0] == Decide(find, cfg, page, wishes[0])
      && edits[1..] == Edits(find, cfg, Turn(find, cfg, page, wishes[0]), wishes[1..])
      && Final(page.content, edits) ==
         Final(Turn(find, cfg, page, wishes[0]).content, Edits(find, cfg, Turn(find, cfg, page, wishes[0]), wishes[1..]))
  {
  }

  // ---- Tags survive ---------------------------------------------------------

  predicate TextAt(s: string, p: nat, t: string) {
    p + |t| <= |s| && s[p..p + |t|] == t
  }

  /** A place no scan arrives at is inside a match the scan takes. */
  lemma {:induction false} JumpedOver(xs: seq<Step>, stack: seq<string>, i: nat, p: nat) returns (j: nat)
    requires i <= p <= |xs| && Reach(xs, stack, i, p).None?
    ensures i <= j < p && Reach(xs, stack, i, j).Some? && p < j + xs[j].len
    decreases p - i
  {
    if p < i + Move(xs[i]) {
      return i;
    }
    j := JumpedOver(xs, Next(xs[i], stack), i + Move(xs[i]), p);
    assert Reach(xs, stack, i, j) == Reach(xs, Next(xs[i], stack), i + Move(xs[i]), j);
  }

  lemma TagCharsAt(s: string, p: nat, tag: string)
    requires TextAt(s, p, tag) && OneTag(tag)
    ensures forall j :: p <= j < p + |tag| - 1 ==> s[j] != '>'
    ensures Steps(s)[p].len == |tag|
  {
    assert forall j :: p <= j < p + |tag| ==> s[p..p + |tag|][j - p] == s[j];
    assert s[p..] == tag + s[p + |tag|..];
    TagStepText(s, p, tag, s[p + |tag|..]);
  }

  /** No position of a complete tag is prose, whatever surrounds it. */
  lemma TagIsNotProse(s: string, p: nat, tag: string, k: nat)
    requires TextAt(s, p, tag) && OneTag(tag) && p <= k < p + |tag|
    ensures !Prose(s, k)
  {
    TagCharsAt(s, p, tag);
    var xs := Steps(s);
    if Reach(xs, [], 0, p).Some? {
      if k > p { StepsCover(xs, p, k); }
    } else if Reach(xs, [], 0, k).Some? && k > p {
      var j := JumpedOver(xs, [], 0, p);
      StepInside(xs, j, k);
      StepsAt(s, j);
      MatchEnds(s, j);
    }
  }

  lemma StepsCover(xs: seq<Step>, p: nat, k: nat)
    requires p < k < |xs| && Reach(xs, [], 0, p).Some? && k < p + xs[p].len
    ensures Reach(xs, [], 0, k).None?
  {
    ReachFrom(xs, [], 0, p, k);
  }

  /** So a span of prose lies wholly before it or wholly after it. */
  lemma ProseMissesTag(s: string, a: nat, b: nat, p: nat, tag: string)
    requires ProseSpan(Steps(s), a, b) && TextAt(s, p, tag) && OneTag(tag)
    ensures b <= p || p + |tag| <= a
  {
    if p < b && a < p + |tag| {
      TagIsNotProse(s, p, tag, Max(a, p));
    }
  }

  // ---- Positions through later edits ----------------------------------------

  /** Where a position of the content is after an edit. */
  function Moved(k: nat, e: Edit): nat {
    match e
    case InText(a, b, href) =>
      if k < a then k else if k < b then k + |OpenTag(href)| else k + |OpenTag(href)| + |CLOSE|
    case _ => k
  }

  function MovedAll(k: nat, edits: seq<Edit>): nat
    decreases |edits|
  {
    if edits == [] then k else MovedAll(Moved(k, edits[0]), edits[1..])
  }

  lemma TextInFront(x: string, y: string, p: nat, t: string)
    requires p + |t| <= |x|
    ensures TextAt(x + y, p, t) <==> TextAt(x, p, t)
  {
    assert (x + y)[p..p + |t|] == x[p..p + |t|];
  }

  lemma TextBehind(x: string, y: string, p: nat, t: string)
    requires p >= |x|
    ensures TextAt(x + y, p, t) <==> TextAt(y, p - |x|, t)
  {
    if p + |t| <= |x + y| { assert (x + y)[p..p + |t|] == y[p - |x|..p - |x| + |t|]; }
  }

  lemma WrapSides(s: string, a: nat, b: nat, open: string, close: string, p: nat, t: string)
    requires a <= b <= |s| && TextAt(s, p, t) && (p + |t| <= a || b <= p)
    ensures TextAt(Wrapped(s, a, b, open, close), if p + |t| <= a then p else p + |open| + |close|, t)
  {
    WrapParts(s, a, b, open, close);
    if p + |t| <= a {
      TextInFront(s[..a], s[a..b] + s[b..], p, t);
      TextInFront(s[..a] + open, s[a..b] + close + s[b..], p, t);
      TextInFront(s[..a], open, p, t);
    } else {
      assert s == s[..b] + s[b..];
      TextBehind(s[..b], s[b..], p, t);
      TextBehind(s[..a] + open + s[a..b] + close, s[b..], p + |open| + |close|, t);
    }
  }

  lemma MovedTogether(p: nat, n: nat, d: nat, e: Edit)
    requires d < n && (e.InText? ==> e.start < e.end && (p + n <= e.start || e.end <= p))
    ensures Moved(p + d, e) == Moved(p, e) + d
  {
  }

  /** Text on one side of an edit moves with it. */
  lemma TextMoves(s: string, e: Edit, p: nat, t: string)
    requires TextAt(s, p, t) && t != [] && Fits(s, e) && (e.InText? ==> p + |t| <= e.start || e.end <= p)
    ensures TextAt(Edited(s, e), Moved(p, e), t)
  {
    match e
    case Present =>
    case InText(a, b, href) => WrapSides(s, a, b, OpenTag(href), CLOSE, p, t);
    case Appended(href, anchor) =>
      assert (s + Block(href, anchor))[p..p + |t|] == s[p..p + |t|];
  }

  // ---- The distance ---------------------------------------------------------

  /** A mark of `s` at `p`, with every other mark at least `gap` characters away. */
  ghost predicate Spaced(s: string, p: nat, gap: int) {
    MarkAt(s, p) && forall q :: 0 <= q < |s| && MarkAt(s, q) && q != p ==> p - q >= gap || q - p >= gap
  }

  lemma MarkInside(x: string, y: string, z: string, q: nat)
    requires Parting(y)
    ensures MarkAt(x + y + z, q) ==>
      if q < |x| then MarkAt(x, q) else if q < |x + y| then MarkAt(y, q - |x|) else MarkAt(z, q - |x + y|)
  {
    assert (x + y)[|x + y| - 1] == y[|y| - 1];
    if q < |x + y| {
      MarkInJoin(x + y, z, q);
      if q < |x| { MarkInJoin(x, y, q); } else { MarkPastJoin(x, y, q); }
    } else {
      MarkPastJoin(x + y, z, q);
    }
  }

  lemma SliceOfSlice(s: string, i: nat, j: nat, q: nat, n: nat)
    requires i <= j <= |s| && q + n <= j - i
    ensures s[i..j][q..q + n] == s[i + q..i + q + n]
  {
    var x, y := s[i..j][q..q + n], s[i + q..i + q + n];
    forall d | 0 <= d < n ensures x[d] == y[d] {
      assert x[d] == s[i..j][q + d];
      assert s[i..j][q + d] == s[i + (q + d)];
    }
  }

  lemma MarkOfPart(s: string, i: nat, j: nat, q: nat)
    requires i <= j <= |s| && MarkAt(s[i..j], q)
    ensures MarkAt(s, i + q)
  {
    SliceOfSlice(s, i, j, q, |MARK|);
  }

  /** Every mark of the new content is the new link's or an old one, moved. */
  lemma MarkOrigin(s: string, a: nat, b: nat, open: string, close: string, q: nat) returns (p: nat)
    requires a <= b <= |s| && Parting(open) && Parting(close)
    requires (forall i :: MarkAt(open, i) <==> i == 3) && (forall i :: !MarkAt(close, i))
    requires MarkAt(Wrapped(s, a, b, open, close), q) && q != a + 3
    ensures MarkAt(s, p)
    ensures q == if p < a then p else if p < b then p + |open| else p + |open| + |close|
  {
    var tail := s[a..b] + close + s[b..];
    WrapParts(s, a, b, open, close);
    MarkInside(s[..a], open, tail, q);
    if q < a {
      MarkOfPart(s, 0, a, q);
      return q;
    }
    var r := q - a - |open|;
    MarkInside(s[a..b], close, s[b..], r);
    if r < b - a {
      MarkOfPart(s, a, b, r);
      return a + r;
    }
    var t := r - (b - a) - |close|;
    assert s[b..] == s[b..|s|];
    MarkOfPart(s, b, |s|, t);
    return b + t;
  }

  lemma OpenMarks(href: string)
    requires '"' !in href && '>' !in href
    ensures Parting(OpenTag(href)) && Parting(CLOSE)
    ensures (forall i :: MarkAt(OpenTag(href), i) <==> i == 3) && (forall i :: !MarkAt(CLOSE, i))
  {
    OpenIsTag(href);
    CloseIsTag();
    TagsPart(OpenTag(href));
    TagsPart(CLOSE);
    forall i: nat ensures MarkAt(OpenTag(href), i) <==> i == 3 { OpenHoldsOneMark(href, i); }
  }

  predicate Far(p: int, q: int, gap: int) { p - q >= gap || q - p >= gap }

  /** Marks only move apart. */
  lemma MovedApart(p: nat, q: nat, e: Edit, gap: int)
    requires p != q && Far(p, q, gap)
    ensures Moved(p, e) != Moved(q, e) && Far(Moved(p, e), Moved(q, e), gap)
  {
  }

  /** A mark that keeps its distance keeps it through the next edit. */
  lemma StaysSpaced(s: string, a: nat, b: nat, href: string, p: nat, gap: int)
    requires a < b <= |s| && '"' !in href && '>' !in href
    requires Spaced(s, p, gap) && MarkAt(Spliced(s, a, b, href), Moved(p, InText(a, b, href)))
    requires !Crowds(s, Span(a, b), gap) && (p + |MARK| <= a || b <= p)
    ensures Spaced(Spliced(s, a, b, href), Moved(p, InText(a, b, href)), gap)
  {
    var e, u := InText(a, b, href), Spliced(s, a, b, href);
    OpenMarks(href);
    MarkListFindsAll(s, 0, p);
    forall q | 0 <= q < |u| && MarkAt(u, q) && q != Moved(p, e) ensures Far(Moved(p, e), q, gap) {
      if q != a + 3 {
        var o := MarkOrigin(s, a, b, OpenTag(href), CLOSE, q);
        MovedApart(p, o, e, gap);
      }
    }
  }

  /** The new link's own mark keeps its distance. */
  lemma NewMarkSpaced(s: string, a: nat, b: nat, href: string, gap: int)
    requires a < b <= |s| && '"' !in href && '>' !in href && !Crowds(s, Span(a, b), gap)
    ensures Spaced(Spliced(s, a, b, href), a + 3, gap)
    ensures TextAt(Spliced(s, a, b, href), a, OpenTag(href))
  {
    var u := Spliced(s, a, b, href);
    OpenMarks(href);
    WrapParts(s, a, b, OpenTag(href), CLOSE);
    var tail := s[a..b] + CLOSE + s[b..];
    MarkPastJoin(s[..a], OpenTag(href), a + 3);
    MarkInJoin(s[..a] + OpenTag(href), tail, a + 3);
    assert u[a..a + |OpenTag(href)|] == OpenTag(href);
    forall q | 0 <= q < |u| && MarkAt(u, q) && q != a + 3 ensures Far(a + 3, q, gap) {
      var o := MarkOrigin(s, a, b, OpenTag(href), CLOSE, q);
      MarkListFindsAll(s, 0, o);
    }
  }

  lemma AppendedSpaced(s: string, href: string, anchor: string, p: nat, gap: int)
    requires Spaced(s, p, gap) && '"' !in href && '"' !in anchor
    ensures Spaced(s + Block(href, anchor), p, gap)
  {
    var t := Block(href, anchor);
    BlockParts(s, href, anchor);
    MarkInJoin(s, t, p);
    forall q | 0 <= q < |s + t| && MarkAt(s + t, q) && q != p ensures Far(p, q, gap) {
      if q < |s| {
        MarkInJoin(s, t, q);
      } else {
        MarkPastJoin(s, t, q);
        BlockHoldsNoMark(href, anchor, q - |s|);
      }
    }
  }

  predicate CleanText(t: string) { '"' !in t && '>' !in t }

  /** What is known of an edit that rendering decided on. */
  ghost predicate Sound(content: string, e: Edit, gap: int) {
    match e
    case Present => true
    case InText(a, b, href) =>
      ProseSpan(Steps(content), a, b) && CleanText(href) && !Crowds(content, Span(a, b), gap)
    case Appended(href, anchor) => CleanText(href) && CleanText(anchor)
  }

  lemma DecideSound(find: Finder, cfg: Settings, page: Page, w: Wish)
    requires Finds(find)
    ensures Sound(page.content, Decide(find, cfg, page, w), cfg.gap)
  {
    DecideFits(find, cfg, page, w);
  }

  /** A mark of ours, in the tag it came with, at its distance from every other. */
  ghost predicate OurMark(s: string, p: nat, href: string, gap: int) {
    p >= 3 && CleanText(href) && TextAt(s, p - 3, OpenTag(href)) && Spaced(s, p, gap)
  }

  lemma MarkInOpen(s: string, q: nat, href: string)
    requires q >= 3 && TextAt(s, q - 3, OpenTag(href)) && '"' !in href
    ensures MarkAt(s, q)
  {
    OpenHoldsOneMark(href, 3);
    var m := OpenTag(href);
    SliceOfSlice(s, q - 3, q - 3 + |m|, 3, |MARK|);
  }

  /** A whole tag moves with the side of the edit it is on. */
  lemma TagMoves(s: string, e: Edit, p: nat, tag: string, gap: int)
    requires Sound(s, e, gap) && TextAt(s, p, tag) && OneTag(tag)
    ensures e.InText? ==> e.start < e.end && (p + |tag| <= e.start || e.end <= p)
    ensures TextAt(Edited(s, e), Moved(p, e), tag)
  {
    if e.InText? { ProseMissesTag(s, e.start, e.end, p, tag); }
    TextMoves(s, e, p, tag);
  }

  lemma MarkMoves(s: string, e: Edit, p: nat, tag: string, gap: int)
    requires Sound(s, e, gap) && TextAt(s, p, tag) && OneTag(tag) && |tag| >= 26
    ensures e.InText? ==> p + 3 + |MARK| <= e.start || e.end <= p + 3
    ensures Moved(p + 3, e) == Moved(p, e) + 3 && TextAt(Edited(s, e), Moved(p, e), tag)
  {
    TagMoves(s, e, p, tag, gap);
    MovedTogether(p, |tag|, 3, e);
  }

  lemma OpenMoves(s: string, e: Edit, p: nat, href: string, gap: int)
    requires Sound(s, e, gap) && p >= 3 && CleanText(href) && TextAt(s, p - 3, OpenTag(href))
    ensures e.InText? ==> p + |MARK| <= e.start || e.end <= p
    ensures Moved(p, e) >= 3 && TextAt(Edited(s, e), Moved(p, e) - 3, OpenTag(href))
  {
    var tag := OpenTag(href);
    assert OneTag(tag) && |tag| >= 26 by {
      OpenIsTag(href);
      OpenParts(href);
    }
    MarkMoves(s, e, p - 3, tag, gap);
  }

  lemma EditKeepsMark(s: string, e: Edit, p: nat, href: string, gap: int)
    requires Sound(s, e, gap) && OurMark(s, p, href, gap)
    ensures OurMark(Edited(s, e), Moved(p, e), href, gap)
  {
    OpenMoves(s, e, p, href, gap);
    match e {
      case Present =>
      case InText(a, b, h) =>
        MarkInOpen(Edited(s, e), Moved(p, e), href);
        StaysSpaced(s, a, b, h, p, gap);
      case Appended(h, anchor) => AppendedSpaced(s, h, anchor, p, gap);
    }
  }

  lemma {:induction false} RestKeepsMark(find: Finder, cfg: Settings, page: Page, wishes: seq<Wish>, p: nat, href: string)
    requires Finds(find) && OurMark(page.content, p, href, cfg.gap)
    ensures var edits := Edits(find, cfg, page, wishes);
            OurMark(Final(page.content, edits), MovedAll(p, edits), href, cfg.gap)
    decreases |wishes|
  {
    if wishes != [] {
      DecideSound(find, cfg, page, wishes[0]);
      EditKeepsMark(page.content, Decide(find, cfg, page, wishes[0]), p, href, cfg.gap);
      EditsFront(find, cfg, page, wishes);
      RestKeepsMark(find, cfg, Turn(find, cfg, page, wishes[0]), wishes[1..],
                    Moved(p, Decide(find, cfg, page, wishes[0])), href);
    }
  }

  lemma LaterEdits(content: string, edits: seq<Edit>, i: nat)
    requires 0 < i < |edits|
    ensures edits[1..][i..] == edits[i + 1..] && edits[1..][i - 1] == edits[i]
    ensures Final(content, edits[..i]) == Final(Edited(content, edits[0]), edits[1..][..i - 1])
  {
    assert edits[..i][1..] == edits[1..][..i - 1];
  }

  /** The link of the edit at `i` is marked, and at its distance, once all are made. */
  ghost predicate KeepsGap(content: string, edits: seq<Edit>, i: nat, gap: int) {
    && i < |edits| && edits[i].InText?
    && OurMark(Final(content, edits), MovedAll(edits[i].start + 3, edits[i + 1..]), edits[i].href, gap)
  }

  lemma KeepsGapLater(content: string, edits: seq<Edit>, i: nat, gap: int)
    requires 0 < i < |edits| && KeepsGap(Edited(content, edits[0]), edits[1..], i - 1, gap)
    ensures KeepsGap(content, edits, i, gap)
  {
    LaterEdits(content, edits, i);
  }

  lemma FirstKeepsGap(find: Finder, cfg: Settings, page: Page, wishes: seq<Wish>)
    requires Finds(find) && wishes != [] && Decide(find, cfg, page, wishes[0]).InText?
    ensures KeepsGap(page.content, Edits(find, cfg, page, wishes), 0, cfg.gap)
  {
    var e := Decide(find, cfg, page, wishes[0]);
    DecideSound(find, cfg, page, wishes[0]);
    NewMarkSpaced(page.content, e.start, e.end, e.href, cfg.gap);
    RestKeepsMark(find, cfg, Turn(find, cfg, page, wishes[0]), wishes[1..], e.start + 3, e.href);
    EditsFront(find, cfg, page, wishes);
  }

  /** Every in-text link this rendering placed is in the final post with its whole opening
      tag, and at least the configured distance from every other marked link there. */
  lemma {:induction false} GapKept(find: Finder, cfg: Settings, page: Page, wishes: seq<Wish>, i: nat)
    requires Finds(find) && i < |wishes| && Edits(find, cfg, page, wishes)[i].InText?
    ensures KeepsGap(page.content, Edits(find, cfg, page, wishes), i, cfg.gap)
    decreases |wishes|
  {
    EditsFront(find, cfg, page, wishes);
    if i == 0 {
      FirstKeepsGap(find, cfg, page, wishes);
    } else {
      GapKept(find, cfg, Turn(find, cfg, page, wishes[0]), wishes[1..], i - 1);
      KeepsGapLater(page.content, Edits(find, cfg, page, wishes), i, cfg.gap);
    }
  }
}
