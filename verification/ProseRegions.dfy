/** `_prose_regions`: one pass with a stack and a counter of unlisted open elements, and
    what the regions it returns are. */
module ProseRegions {
  import opened Prelude
  import opened HtmlScanner

  datatype Span = Span(start: nat, end: nat)

  predicate Within(spans: seq<Span>, k: nat) {
    exists r :: r in spans && r.start <= k < r.end
  }

  /** In order, none empty, and with something between one and the next. */
  predicate Separated(spans: seq<Span>) {
    && (forall i :: 0 <= i < |spans| ==> spans[i].start < spans[i].end)
    && (forall i, j :: 0 <= i < j < |spans| ==> spans[i].end < spans[j].start)
  }

  predicate InOneRegion(regions: seq<Span>, a: nat, b: nat) {
    exists r :: r in regions && r.start <= a && b <= r.end
  }

  /** `finditer`: where the next tag or comment at or after `from` starts. */
  function NextMatch(steps: seq<Step>, from: nat): (r: Option<nat>)
    requires from <= |steps|
    ensures r.Some? ==> from <= r.value < |steps| && steps[r.value].len > 0
    ensures forall j :: from <= j < (if r.Some? then r.value else |steps|) ==> steps[j].len == 0
    decreases |steps| - from
  {
    if from == |steps| then None else if steps[from].len > 0 then Some(from) else NextMatch(steps, from + 1)
  }

  function Unlisted(stack: seq<string>): nat {
    if stack == [] then 0 else Unlisted(stack[..|stack| - 1]) + if stack[|stack| - 1] in SPLICE_OK then 0 else 1
  }

  lemma {:induction false} UnlistedIsCount(stack: seq<string>)
    ensures Unlisted(stack) == 0 <==> forall name :: name in stack ==> name in SPLICE_OK
  {
    if stack != [] {
      UnlistedIsCount(stack[..|stack| - 1]);
      assert stack == stack[..|stack| - 1] + [stack[|stack| - 1]];
    }
  }

  lemma {:induction false} UnlistedCut(stack: seq<string>, i: nat)
    requires i <= |stack|
    ensures Unlisted(stack) == Unlisted(stack[..i]) + Unlisted(stack[i..])
    decreases |stack|
  {
    if i == |stack| {
      assert stack[..i] == stack && stack[i..] == [];
    } else {
      var front := stack[..|stack| - 1];
      UnlistedCut(front, i);
      assert front[..i] == stack[..i] && stack[i..][..|stack[i..]| - 1] == front[i..];
    }
  }

  predicate ProseOpen(stack: seq<string>) {
    stack == [] || exists name :: name in stack && name in SPLICE_TEXT
  }

  /** Between two matches the open elements do not change. */
  lemma GapRun(t: seq<Step>, cursor: nat, stack: seq<string>, k: nat)
    requires cursor <= k <= |t| && Reach(t, [], 0, cursor) == Some(stack)
    requires forall j :: cursor <= j < k ==> t[j].len == 0
    ensures Reach(t, [], 0, k) == Some(stack)
  {
    ReachPlain(t, stack, cursor, k);
    ReachFrom(t, [], 0, cursor, k);
  }

  /** The characters up to `end` are prose, or not, as the open elements say. */
  lemma GapIsProse(t: seq<Step>, cursor: nat, stack: seq<string>, end: nat)
    requires cursor <= end <= |t| && Reach(t, [], 0, cursor) == Some(stack)
    requires forall j :: cursor <= j < end ==> t[j].len == 0
    ensures forall k :: cursor <= k < end ==> (ProseAt(t, k) <==> Unlisted(stack) == 0 && ProseOpen(stack))
  {
    UnlistedIsCount(stack);
    forall k | cursor <= k < end ensures ProseAt(t, k) <==> Unlisted(stack) == 0 && ProseOpen(stack) {
      GapRun(t, cursor, stack, k);
    }
  }

  /** Nothing inside a match is prose. */
  lemma MatchIsNotProse(t: seq<Step>, at: nat, k: nat)
    requires Bounded(t) && at < |t| && Reach(t, [], 0, at).Some? && t[at].len > 0 && at <= k < at + t[at].len
    ensures !ProseAt(t, k)
  {
    ReachNext(t, [], 0, at);
  }

  /** What is known of the regions once everything before `cursor` has been read. */
  ghost predicate ReadUpTo(steps: seq<Step>, regions: seq<Span>, cursor: nat) {
    && Separated(regions)
    && (forall i :: 0 <= i < |regions| ==> regions[i].end < cursor || regions[i].end == cursor == |steps|)
    && (forall k :: 0 <= k < cursor ==> (Within(regions, k) <==> ProseAt(steps, k)))
  }

  function WithRegion(regions: seq<Span>, stack: seq<string>, a: nat, b: nat): seq<Span> {
    if Unlisted(stack) == 0 && ProseOpen(stack) && a < b then regions + [Span(a, b)] else regions
  }

  lemma WithinExtended(regions: seq<Span>, stack: seq<string>, a: nat, b: nat, k: nat)
    ensures Within(WithRegion(regions, stack, a, b), k) <==>
      Within(regions, k) || (Unlisted(stack) == 0 && ProseOpen(stack) && a <= k < b)
  {
    assert Span(a, b) in regions + [Span(a, b)];
    if Within(regions, k) {
      var r :| r in regions && r.start <= k < r.end;
      assert r in regions + [Span(a, b)];
    }
  }

  lemma NotYetWithin(regions: seq<Span>, cursor: nat, k: nat)
    requires cursor <= k && forall i :: 0 <= i < |regions| ==> regions[i].end <= cursor
    ensures !Within(regions, k)
  {
  }

  /** The gap before the next match is in the regions exactly when it is prose. */
  lemma ReadGap(steps: seq<Step>, regions: seq<Span>, cursor: nat, stack: seq<string>, start: nat)
    requires cursor <= start <= |steps| && cursor < |steps| && ReadUpTo(steps, regions, cursor)
    requires Reach(steps, [], 0, cursor) == Some(stack)
    requires forall j :: cursor <= j < start ==> steps[j].len == 0
    ensures var more := WithRegion(regions, stack, cursor, start);
      && Separated(more)
      && (forall i :: 0 <= i < |more| ==> more[i].end <= start)
      && (forall k :: 0 <= k < start ==> (Within(more, k) <==> ProseAt(steps, k)))
  {
    GapIsProse(steps, cursor, stack, start);
    forall k | 0 <= k < start ensures Within(WithRegion(regions, stack, cursor, start), k) <==> ProseAt(steps, k) {
      WithinExtended(regions, stack, cursor, start, k);
      if k >= cursor { NotYetWithin(regions, cursor, k); }
    }
  }

  /** The gap before the next match, and that match. */
  lemma ReadMatch(steps: seq<Step>, regions: seq<Span>, cursor: nat, stack: seq<string>, start: nat)
    requires cursor <= start < |steps| && Bounded(steps) && ReadUpTo(steps, regions, cursor)
    requires Reach(steps, [], 0, cursor) == Some(stack)
    requires steps[start].len > 0 && forall j :: cursor <= j < start ==> steps[j].len == 0
    ensures var end := start + steps[start].len;
      && end <= |steps| && Reach(steps, [], 0, end) == Some(After(stack, steps[start].mark))
      && ReadUpTo(steps, WithRegion(regions, stack, cursor, start), end)
  {
    ReadGap(steps, regions, cursor, stack, start);
    GapRun(steps, cursor, stack, start);
    ReachNext(steps, [], 0, start);
    var more, end := WithRegion(regions, stack, cursor, start), start + steps[start].len;
    forall k | start <= k < end ensures Within(more, k) <==> ProseAt(steps, k) {
      MatchIsNotProse(steps, start, k);
      NotYetWithin(more, start, k);
    }
  }

  /** How the counter moves with the stack. */
  lemma UnlistedAfter(stack: seq<string>, mark: Mark)
    ensures mark.Opens? ==> Unlisted(After(stack, mark)) == Unlisted(stack) + (if mark.name in SPLICE_OK then 0 else 1)
    ensures mark.Closes? && mark.name in stack ==>
      Unlisted(After(stack, mark)) == Unlisted(stack) - Unlisted(stack[LastIndex(stack, mark.name)..])
  {
    if mark.Opens? {
      assert (stack + [mark.name])[..|stack|] == stack;
    } else if mark.Closes? && mark.name in stack {
      UnlistedCut(stack, LastIndex(stack, mark.name));
    }
  }

  /** The prose positions, in order, as the fewest possible spans. */
  ghost predicate AreRegions(steps: seq<Step>, regions: seq<Span>) {
    && Separated(regions)
    && (forall i :: 0 <= i < |regions| ==> regions[i].end <= |steps|)
    && (forall k :: 0 <= k < |steps| ==> (Within(regions, k) <==> ProseAt(steps, k)))
  }

  /** The stack and its counter, past one tag. */
  method Track(open: seq<string>, unlisted: int, mark: Mark) returns (stack: seq<string>, blocked: int)
    requires unlisted == Unlisted(open)
    ensures stack == After(open, mark) && blocked == Unlisted(stack)
  {
    stack, blocked := open, unlisted;
    UnlistedAfter(stack, mark);
    match mark {
      case Inert =>
      case Closes(name) =>
        if name in stack {
          var index := LastIndex(stack, name);
          blocked := blocked - Unlisted(stack[index..]);
          stack := stack[..index];
        }
      case Opens(name) =>
        stack := stack + [name];
        if name !in SPLICE_OK { blocked := blocked + 1; }
    }
  }

  /** `_prose_regions`: the regions hold exactly the prose positions, in order, and
      neighbours in one run of prose are in one region. */
  method Regions(content: string) returns (regions: seq<Span>)
    ensures AreRegions(Steps(content), regions)
  {
    StepsBounded(content);
    regions := Scan(Steps(content));
  }

  method AddRegion(regions: seq<Span>, stack: seq<string>, blocked: int, cursor: nat, end: nat) returns (r: seq<Span>)
    requires blocked == Unlisted(stack)
    ensures r == WithRegion(regions, stack, cursor, end)
  {
    r := regions;
    if blocked == 0 && ProseOpen(stack) && end > cursor {
      r := r + [Span(cursor, end)];
    }
  }

  method Scan(steps: seq<Step>) returns (regions: seq<Span>)
    requires Bounded(steps)
    ensures AreRegions(steps, regions)
  {
    regions := [];
    var stack: seq<string> := [];
    var blocked := 0;
    var cursor := 0;
    var next := NextMatch(steps, 0);
    while next.Some?
      invariant cursor <= |steps| && next == NextMatch(steps, cursor)
      invariant Reach(steps, [], 0, cursor) == Some(stack) && blocked == Unlisted(stack)
      invariant ReadUpTo(steps, regions, cursor)
      decreases |steps| - cursor
    {
      var start := next.value;
      var mark := steps[start].mark;
      ReadMatch(steps, regions, cursor, stack, start);
      regions := AddRegion(regions, stack, blocked, cursor, start);
      cursor := start + steps[start].len;
      stack, blocked := Track(stack, blocked, mark);
      next := NextMatch(steps, cursor);
    }
    if cursor < |steps| { ReadGap(steps, regions, cursor, stack, |steps|); }
    regions := AddRegion(regions, stack, blocked, cursor, |steps|);
  }

  lemma OneRegionGrows(regions: seq<Span>, a: nat, b: nat)
    requires Separated(regions) && a + 1 < b && InOneRegion(regions, a, b - 1) && Within(regions, b - 1)
    ensures InOneRegion(regions, a, b)
  {
    var i :| 0 <= i < |regions| && regions[i].start <= a && b - 1 <= regions[i].end;
    var j :| 0 <= j < |regions| && regions[j].start <= b - 1 < regions[j].end;
  }

  /** A span lies in one region exactly when every position of it is prose. */
  lemma {:induction false} InOneRegionIsProse(steps: seq<Step>, regions: seq<Span>, a: nat, b: nat)
    requires AreRegions(steps, regions) && a < b <= |steps|
    ensures InOneRegion(regions, a, b) <==> forall k :: a <= k < b ==> ProseAt(steps, k)
    decreases b - a
  {
    if InOneRegion(regions, a, b) {
      forall k | a <= k < b ensures ProseAt(steps, k) { assert Within(regions, k); }
    } else if forall k :: a <= k < b ==> ProseAt(steps, k) {
      assert ProseAt(steps, b - 1) && Within(regions, b - 1);
      if b - a > 1 {
        InOneRegionIsProse(steps, regions, a, b - 1);
        OneRegionGrows(regions, a, b);
      }
    }
  }

  /** Two lists of regions of one text are the same list. */
  lemma {:induction false} RegionsUnique(xs: seq<Span>, ys: seq<Span>)
    requires Separated(xs) && Separated(ys)
    requires forall k: nat :: Within(xs, k) == Within(ys, k)
    ensures xs == ys
    decreases |xs|
  {
    if xs == [] || ys == [] {
      if xs != [] { FirstWithin(xs); }
      if ys != [] { FirstWithin(ys); }
    } else {
      FirstAgrees(xs, ys);
      forall k: nat ensures Within(xs[1..], k) <==> Within(ys[1..], k) {
        RestWithin(xs, k);
        RestWithin(ys, k);
      }
      RegionsUnique(xs[1..], ys[1..]);
      assert xs == [xs[0]] + xs[1..] && ys == [ys[0]] + ys[1..];
    }
  }

  lemma FirstWithin(xs: seq<Span>)
    requires Separated(xs) && xs != []
    ensures Within(xs, xs[0].start)
  {
    assert xs[0] in xs;
  }

  lemma RestWithin(xs: seq<Span>, k: nat)
    requires Separated(xs) && xs != []
    ensures Within(xs[1..], k) <==> Within(xs, k) && k >= xs[0].end
  {
    if Within(xs, k) && k >= xs[0].end {
      var i :| 0 <= i < |xs| && xs[i].start <= k < xs[i].end;
      assert xs[i] == xs[1..][i - 1];
    }
  }

  lemma FirstAgrees(xs: seq<Span>, ys: seq<Span>)
    requires Separated(xs) && Separated(ys) && xs != [] && ys != []
    requires forall k: nat :: Within(xs, k) == Within(ys, k)
    ensures xs[0] == ys[0]
  {
    FirstStart(xs, ys);
    FirstStart(ys, xs);
    FirstEnd(xs, ys);
    FirstEnd(ys, xs);
  }

  lemma FirstStart(xs: seq<Span>, ys: seq<Span>)
    requires Separated(xs) && Separated(ys) && xs != [] && ys != []
    requires forall k: nat :: Within(xs, k) == Within(ys, k)
    ensures ys[0].start <= xs[0].start
  {
    assert xs[0] in xs && Within(xs, xs[0].start);
    var i :| 0 <= i < |ys| && ys[i].start <= xs[0].start < ys[i].end;
  }

  lemma NotWithinEnd(xs: seq<Span>)
    requires Separated(xs) && xs != []
    ensures !Within(xs, xs[0].end)
  {
  }

  lemma FirstHolds(ys: seq<Span>, k: nat)
    requires ys != [] && ys[0].start <= k < ys[0].end
    ensures Within(ys, k)
  {
    assert ys[0] in ys;
  }

  lemma FirstEnd(xs: seq<Span>, ys: seq<Span>)
    requires Separated(xs) && Separated(ys) && xs != [] && ys != [] && xs[0].start == ys[0].start
    requires forall k: nat :: Within(xs, k) == Within(ys, k)
    ensures ys[0].end <= xs[0].end
  {
    NotWithinEnd(xs);
    if xs[0].end < ys[0].end { FirstHolds(ys, xs[0].end); }
  }
}
