/** What one in-text link does to the scan of the content around it. */
module LinkSplice {
  import opened Prelude
  import opened HtmlScanner

  // ---- Escaping -------------------------------------------------------------

  function EscapeChar(c: char): string {
    if c == '&' then "&amp;" else if c == '<' then "&lt;" else if c == '>' then "&gt;"
    else if c == '"' then "&quot;" else if c == '\'' then "&#x27;" else [c]
  }

  /** `html.escape` */
  function Escape(s: string): (r: string)
    ensures '<' !in r && '>' !in r && '"' !in r && '\'' !in r
  {
    if s == [] then [] else EscapeChar(s[0]) + Escape(s[1..])
  }

  const MARK := "data-linkmesh=\"in-text\""

  const CLOSE := "</a>"

  function OpenTag(href: string): string { "<a " + MARK + " href=\"" + href + "\">" }

  // ---- Inserting one tag ----------------------------------------------------

  /** One tag, ended by its only `>`, which does not end a comment. */
  predicate OneTag(ins: string) {
    && TagStart(ins) && |ins| >= 4 && ins[|ins| - 1] == '>' && ins[|ins| - 2] != '-'
    && forall i :: 0 <= i < |ins| - 1 ==> ins[i] != '>'
  }

  lemma OneTagStep(ins: string, rest: string)
    requires OneTag(ins)
    ensures StepAt(ins + rest) == Step(|ins|, MarkOf(ins))
  {
    var t := ins + rest;
    assert t[|ins| - 1] == '>';
    assert MatchLen(t) == |ins|;
    assert t[..|ins|] == ins;
  }

  /** A tag that was opened before `end` and that nothing after it ever closes. */
  predicate Dangling(s: string, k: nat, end: nat) {
    k < end <= |s| && TagStart(s[k..end]) && '>' !in s[k..]
  }

  predicate Settled(s: string, end: nat) {
    forall k :: 0 <= k < end ==> !Dangling(s, k, end)
  }

  lemma NoArrowIntoTag(x: string, ins: string, y: string, j: nat)
    requires OneTag(ins) && x != [] && |x| <= j + 2 < |x| + |ins|
    ensures !ArrowAt(x + ins + y, j)
  {
    var u := x + ins + y;
    assert u[j + 2] == ins[j + 2 - |x|];
    if j + 2 == |x| + |ins| - 1 { assert u[j + 1] == ins[|ins| - 2]; }
  }

  /** No comment comes to an end because of the inserted tag. */
  lemma NoNewArrow(x: string, ins: string, y: string, j: nat)
    requires OneTag(ins) && x != [] && ArrowAt(x + ins + y, j)
    ensures ArrowAt(x + y, if j < |x| then j else j - |ins|)
    ensures j >= |x| ==> j >= |x| + |ins|
  {
    var u := x + ins + y;
    assert u[|x| + |ins| - 1] == ins[|ins| - 1];
    if |x| <= j + 2 < |x| + |ins| { NoArrowIntoTag(x, ins, y, j); }
  }

  lemma NoMatchInsert(x: string, ins: string, y: string)
    requires OneTag(ins) && x != [] && MatchLen(x + y) == 0 && !TagStart(x)
    ensures MatchLen(x + ins + y) == 0
  {
    var u := x + ins + y;
    assert u[|x|] == ins[0] == '<' && forall i :: 0 <= i < |x| ==> u[i] == x[i];
    if CommentStart(u) {
      assert |x| >= 4 && CommentStart(x + y);
      var next := NextArrow(u, 4);
      if next.Some? { NoNewArrow(x, ins, y, next.value); }
    }
  }

  lemma MatchAtInsert(x: string, ins: string, y: string)
    requires OneTag(ins) && TagStart(x)
    ensures MatchLen(x + ins + y) > 0
  {
    var u := x + ins + y;
    assert u[|x| + |ins| - 1] == '>';
  }

  /** Scans that meet the same steps agree. */
  lemma {:induction false} ReachAgrees(xs: seq<Step>, ys: seq<Step>, stack: seq<string>, i: nat, a: nat, k: nat)
    requires i <= k <= a <= |xs| && a <= |ys| && Reach(xs, stack, i, a).Some?
    requires forall j :: i <= j < a && Reach(xs, stack, i, j).Some? ==> xs[j] == ys[j]
    ensures Reach(ys, stack, i, k) == Reach(xs, stack, i, k)
    decreases a - i
  {
    if i < k {
      assert Reach(xs, stack, i, i).Some? && xs[i] == ys[i];
      var m, next := Move(xs[i]), Next(xs[i], stack);
      if i + m <= k {
        forall j | i + m <= j < a && Reach(xs, next, i + m, j).Some? ensures xs[j] == ys[j] {
          assert Reach(xs, stack, i, j) == Reach(xs, next, i + m, j);
        }
        ReachAgrees(xs, ys, next, i + m, a, k);
      }
    }
  }

  function Inserted(s: string, at: nat, ins: string): (u: string)
    requires at <= |s|
    ensures |u| == |s| + |ins|
  {
    if at == 0 then ins + s else [s[0]] + Inserted(s[1..], at - 1, ins)
  }

  lemma {:induction false} InsertedIs(s: string, at: nat, ins: string)
    requires at <= |s|
    ensures Inserted(s, at, ins) == s[..at] + ins + s[at..]
    decreases at
  {
    if at > 0 {
      InsertedIs(s[1..], at - 1, ins);
      assert s[..at] == [s[0]] + s[1..][..at - 1] && s[1..][at - 1..] == s[at..];
    }
  }

  lemma TagStartGrows(x: string, y: string)
    ensures TagStart(x) ==> TagStart(x + y) && !CommentStart(x + y)
  {
  }

  lemma StepsFrom(t: string, k: nat, v: string)
    requires k < |t| && t[k..] == v
    ensures Steps(t)[k] == StepAt(v)
  {
    StepsAt(t, k);
  }

  /** A step that ends before the inserted tag is the same step with the tag there. */
  lemma StepAtBefore(x: string, ins: string, y: string)
    requires x != [] && OneTag(ins) && MatchLen(x + y) <= |x| && (TagStart(x) ==> '>' in x + y)
    ensures StepAt(x + ins + y) == StepAt(x + y)
  {
    var n := MatchLen(x + y);
    if n == 0 {
      TagStartGrows(x, y);
      NoMatchInsert(x, ins, y);
    } else {
      assert (x + y)[..n] == x[..n] == (x + ins + y)[..n];
      MatchIsLocal(x + y, x + ins + y);
    }
  }

  lemma SameStepText(s: string, u: string, k: nat, x: string, ins: string, y: string)
    requires k < |s| && k < |u| && s[k..] == x + y && u[k..] == x + ins + y
    requires x != [] && OneTag(ins) && Steps(s)[k].len <= |x| && (TagStart(x) ==> '>' in x + y)
    ensures Steps(u)[k] == Steps(s)[k]
  {
    StepsFrom(s, k, x + y);
    StepsFrom(u, k, x + ins + y);
    StepAtBefore(x, ins, y);
  }

  lemma InsertedFrom(s: string, at: nat, ins: string, k: nat)
    requires k < at <= |s|
    ensures s[k..] == s[k..at] + s[at..] && Inserted(s, at, ins)[k..] == s[k..at] + ins + s[at..]
  {
    InsertedIs(s, at, ins);
  }

  /** A step the scan of the old content took before the insertion is taken in the new. */
  lemma StepBefore(s: string, at: nat, ins: string, k: nat)
    requires k < at <= |s| && OneTag(ins) && !Dangling(s, k, at) && k + Steps(s)[k].len <= at
    ensures Steps(Inserted(s, at, ins))[k] == Steps(s)[k]
  {
    InsertedFrom(s, at, ins, k);
    SameStepText(s, Inserted(s, at, ins), k, s[k..at], ins, s[at..]);
  }

  /** A scan that arrives at both `k` and `at` has no match across `at`. */
  lemma StepInside(xs: seq<Step>, k: nat, at: nat)
    requires k < at <= |xs| && Reach(xs, [], 0, k).Some? && Reach(xs, [], 0, at).Some?
    ensures k + xs[k].len <= at
  {
    ReachFrom(xs, [], 0, k, at);
  }

  /** Before the inserted tag the scan is unchanged. */
  lemma InsertBefore(s: string, at: nat, ins: string, k: nat)
    requires k <= at <= |s| && OneTag(ins) && Settled(s, at) && Reach(Steps(s), [], 0, at).Some?
    ensures Reach(Steps(Inserted(s, at, ins)), [], 0, k) == Reach(Steps(s), [], 0, k)
    ensures k < at && Reach(Steps(s), [], 0, k).Some? ==> Steps(Inserted(s, at, ins))[k] == Steps(s)[k]
  {
    var xs, ys := Steps(s), Steps(Inserted(s, at, ins));
    forall j | 0 <= j < at && Reach(xs, [], 0, j).Some? ensures ys[j] == xs[j] {
      StepInside(xs, j, at);
      StepBefore(s, at, ins, j);
    }
    ReachAgrees(xs, ys, [], 0, at, k);
  }

  lemma TagStepText(u: string, at: nat, ins: string, y: string)
    requires at < |u| && u[at..] == ins + y && OneTag(ins)
    ensures Steps(u)[at] == Step(|ins|, MarkOf(ins))
  {
    StepsFrom(u, at, ins + y);
    OneTagStep(ins, y);
  }

  lemma InsertedHere(s: string, at: nat, ins: string)
    requires at <= |s|
    ensures Inserted(s, at, ins)[at..] == ins + s[at..]
  {
    InsertedIs(s, at, ins);
  }

  lemma InsertedBeyond(s: string, at: nat, ins: string, k: nat)
    requires at <= k <= |s|
    ensures Inserted(s, at, ins)[k + |ins|..] == s[k..]
  {
    InsertedIs(s, at, ins);
  }

  /** The inserted tag is one step. */
  lemma InsertedStep(s: string, at: nat, ins: string)
    requires at <= |s| && OneTag(ins)
    ensures Steps(Inserted(s, at, ins))[at] == Step(|ins|, MarkOf(ins))
  {
    InsertedHere(s, at, ins);
    TagStepText(Inserted(s, at, ins), at, ins, s[at..]);
  }

  lemma SameSuffixStep(t: string, i: nat, u: string, j: nat)
    requires i < |t| && j < |u| && t[i..] == u[j..]
    ensures Steps(t)[i] == Steps(u)[j]
  {
    StepsAt(t, i);
    StepsAt(u, j);
  }

  /** After it come the old steps. */
  lemma InsertedLater(s: string, at: nat, ins: string, k: nat)
    requires at <= k < |s|
    ensures Steps(Inserted(s, at, ins))[k + |ins|] == Steps(s)[k]
  {
    InsertedBeyond(s, at, ins, k);
    SameSuffixStep(Inserted(s, at, ins), k + |ins|, s, k);
  }

  /** The scan before and after one tag goes in: nothing changes ahead of it, the tag is one
      step, and the old steps follow. */
  ghost predicate TagIn(xs: seq<Step>, at: nat, n: nat, mark: Mark, ys: seq<Step>) {
    && at <= |xs| && |ys| == |xs| + n && n > 0
    && (forall k :: 0 <= k <= at ==> Reach(ys, [], 0, k) == Reach(xs, [], 0, k))
    && (forall k :: 0 <= k < at && Reach(xs, [], 0, k).Some? ==> ys[k] == xs[k])
    && ys[at] == Step(n, mark)
    && (forall k :: at <= k < |xs| ==> ys[k + n] == xs[k])
  }

  lemma InsertTag(s: string, at: nat, ins: string)
    requires at <= |s| && OneTag(ins) && Settled(s, at) && Reach(Steps(s), [], 0, at).Some?
    ensures TagIn(Steps(s), at, |ins|, MarkOf(ins), Steps(Inserted(s, at, ins)))
  {
    forall k | 0 <= k <= at
      ensures Reach(Steps(Inserted(s, at, ins)), [], 0, k) == Reach(Steps(s), [], 0, k)
      ensures k < at && Reach(Steps(s), [], 0, k).Some? ==> Steps(Inserted(s, at, ins))[k] == Steps(s)[k]
    {
      InsertBefore(s, at, ins, k);
    }
    InsertedStep(s, at, ins);
    forall k | at <= k < |s| ensures Steps(Inserted(s, at, ins))[k + |ins|] == Steps(s)[k] {
      InsertedLater(s, at, ins, k);
    }
  }

  // ---- The scan around one link ---------------------------------------------

  ghost predicate ProseSpan(xs: seq<Step>, a: nat, b: nat) {
    a < b <= |xs| && forall k :: a <= k < b ==> ProseAt(xs, k)
  }

  /** The new prose is the old prose without the linked words, moved along. */
  ghost predicate Shifted(xs: seq<Step>, a: nat, b: nat, ys: seq<Step>) {
    && |xs| <= |ys| && a <= b <= |xs|
    && (forall k :: 0 <= k < a ==> (ProseAt(ys, k) <==> ProseAt(xs, k)))
    && (forall k :: a <= k < b + (|ys| - |xs|) ==> !ProseAt(ys, k))
    && (forall k :: b <= k < |xs| ==> (ProseAt(ys, k + (|ys| - |xs|)) <==> ProseAt(xs, k)))
  }

  /** Inside one run of prose the open elements are the same throughout. */
  lemma ProseRun(xs: seq<Step>, a: nat, b: nat)
    requires ProseSpan(xs, a, b)
    ensures Reach(xs, [], 0, a).Some? && Allowed(Reach(xs, [], 0, a).value)
    ensures forall k :: a <= k <= b ==> Reach(xs, [], 0, k) == Reach(xs, [], 0, a)
    ensures forall k :: a <= k < b ==> xs[k].len == 0
  {
    assert ProseAt(xs, a);
    forall k | a <= k < b ensures xs[k].len == 0 { assert ProseAt(xs, k); }
    var stack := Reach(xs, [], 0, a).value;
    forall k | a <= k <= b ensures Reach(xs, [], 0, k) == Some(stack) {
      ReachFrom(xs, [], 0, a, k);
      ReachPlain(xs, stack, a, k);
    }
  }

  /** The tag itself is not prose, and opens or closes what it says. */
  lemma TagTaken(xs: seq<Step>, at: nat, n: nat, mark: Mark, ys: seq<Step>)
    requires TagIn(xs, at, n, mark, ys) && Reach(xs, [], 0, at).Some?
    ensures Reach(ys, [], 0, at + n) == Some(After(Reach(xs, [], 0, at).value, mark))
    ensures forall k :: at <= k < at + n ==> !ProseAt(ys, k)
    ensures forall k :: 0 <= k < at ==> (ProseAt(ys, k) <==> ProseAt(xs, k))
  {
    ReachNext(ys, [], 0, at);
  }

  lemma Innermost(stack: seq<string>, name: string)
    requires name !in stack
    ensures After(stack + [name], Closes(name)) == stack
  {
    var i := LastIndex(stack + [name], name);
    assert (stack + [name])[|stack|] == name;
    assert forall j :: 0 <= j < |stack| ==> (stack + [name])[j] == stack[j];
  }

  lemma LinkPops(stack: seq<string>)
    requires Allowed(stack)
    ensures After(stack + ["a"], Closes("a")) == stack
  {
    assert "a" !in SPLICE_OK;
    Innermost(stack, "a");
  }

  /** The linked words stand inside the link. */
  lemma LinkedWords(xs: seq<Step>, a: nat, b: nat, n: nat, ys: seq<Step>)
    requires ProseSpan(xs, a, b) && TagIn(xs, a, n, Opens("a"), ys)
    ensures Reach(xs, [], 0, a).Some?
    ensures forall k :: a + n <= k <= b + n ==> Reach(ys, [], 0, k) == Some(Reach(xs, [], 0, a).value + ["a"])
    ensures forall k :: a <= k < b + n ==> !ProseAt(ys, k)
  {
    ProseRun(xs, a, b);
    TagTaken(xs, a, n, Opens("a"), ys);
    var inside := Reach(xs, [], 0, a).value + ["a"];
    forall j | a + n <= j < b + n ensures ys[j].len == 0 { assert ys[(j - n) + n] == xs[j - n]; }
    forall k | a + n <= k <= b + n ensures Reach(ys, [], 0, k) == Some(inside) {
      ReachPlain(ys, inside, a + n, k);
      ReachFrom(ys, [], 0, a + n, k);
    }
    assert "a" in inside && "a" !in SPLICE_OK;
  }

  lemma SliceFront(xs: seq<Step>, i: nat, n: nat)
    requires i + n < |xs|
    ensures xs[i + n] == xs[i..i + n + 1][n] && xs[i..i + n] == xs[i..i + n + 1][..n]
  {
  }

  /** Where the scan of `ys` goes on as the scan of `xs` did, so does the prose. */
  lemma ProseAfter(xs: seq<Step>, i: nat, ys: seq<Step>, j: nat, n: nat)
    requires i + n < |xs| && j + n < |ys| && xs[i..i + n + 1] == ys[j..j + n + 1]
    requires Reach(xs, [], 0, i).Some? && Reach(xs, [], 0, i) == Reach(ys, [], 0, j)
    ensures ProseAt(ys, j + n) <==> ProseAt(xs, i + n)
  {
    SliceFront(xs, i, n);
    SliceFront(ys, j, n);
    ReachGoesOn(xs, i, ys, j, n);
  }

  lemma ReachGoesOn(xs: seq<Step>, i: nat, ys: seq<Step>, j: nat, n: nat)
    requires i + n <= |xs| && j + n <= |ys| && xs[i..i + n] == ys[j..j + n]
    requires Reach(xs, [], 0, i).Some? && Reach(xs, [], 0, i) == Reach(ys, [], 0, j)
    ensures Reach(xs, [], 0, i + n) == Reach(ys, [], 0, j + n)
  {
    ReachFrom(xs, [], 0, i, i + n);
    ReachFrom(ys, [], 0, j, j + n);
    ReachAhead(xs, i, ys, j, Reach(xs, [], 0, i).value, n);
  }

  lemma CloseReturns(ys: seq<Step>, at: nat, m: nat, zs: seq<Step>, stack: seq<string>)
    requires TagIn(ys, at, m, Closes("a"), zs) && Reach(ys, [], 0, at) == Some(stack + ["a"]) && Allowed(stack)
    ensures Reach(zs, [], 0, at + m) == Some(stack)
  {
    TagTaken(ys, at, m, Closes("a"), zs);
    LinkPops(stack);
  }

  /** After the closing tag the scan stands where it stood. */
  lemma LinkClosed(xs: seq<Step>, a: nat, b: nat, n: nat, ys: seq<Step>, m: nat, zs: seq<Step>)
    requires ProseSpan(xs, a, b) && TagIn(xs, a, n, Opens("a"), ys) && TagIn(ys, b + n, m, Closes("a"), zs)
    ensures Reach(xs, [], 0, b).Some? && Reach(zs, [], 0, b + n + m) == Reach(xs, [], 0, b)
  {
    ProseRun(xs, a, b);
    LinkedWords(xs, a, b, n, ys);
    CloseReturns(ys, b + n, m, zs, Reach(xs, [], 0, a).value);
  }

  lemma TwoTagsIn(xs: seq<Step>, a: nat, b: nat, n: nat, ys: seq<Step>, m: nat, zs: seq<Step>, k: nat)
    requires a <= b <= k < |xs| && TagIn(xs, a, n, Opens("a"), ys) && TagIn(ys, b + n, m, Closes("a"), zs)
    ensures xs[b..k + 1] == zs[b + n + m..k + n + m + 1]
  {
    var was, now := xs[b..k + 1], zs[b + n + m..k + n + m + 1];
    forall d | 0 <= d < |was| ensures was[d] == now[d] {
      assert ys[(b + d) + n] == xs[b + d];
      assert zs[(b + d + n) + m] == ys[b + d + n];
    }
  }

  lemma ProseBeyondLink(xs: seq<Step>, a: nat, b: nat, n: nat, ys: seq<Step>, m: nat, zs: seq<Step>, k: nat)
    requires ProseSpan(xs, a, b) && TagIn(xs, a, n, Opens("a"), ys) && TagIn(ys, b + n, m, Closes("a"), zs)
    requires b <= k < |xs|
    ensures ProseAt(zs, k + n + m) <==> ProseAt(xs, k)
  {
    LinkClosed(xs, a, b, n, ys, m, zs);
    TwoTagsIn(xs, a, b, n, ys, m, zs, k);
    ProseAfter(xs, b, zs, b + n + m, k - b);
  }

  lemma ProseUpToLink(xs: seq<Step>, a: nat, b: nat, n: nat, ys: seq<Step>, m: nat, zs: seq<Step>, k: nat)
    requires ProseSpan(xs, a, b) && TagIn(xs, a, n, Opens("a"), ys) && TagIn(ys, b + n, m, Closes("a"), zs)
    requires k < b + n + m
    ensures if k < a then ProseAt(zs, k) <==> ProseAt(xs, k) else !ProseAt(zs, k)
  {
    LinkedWords(xs, a, b, n, ys);
    TagTaken(xs, a, n, Opens("a"), ys);
    TagTaken(ys, b + n, m, Closes("a"), zs);
  }

  lemma LinkShifts(xs: seq<Step>, a: nat, b: nat, n: nat, ys: seq<Step>, m: nat, zs: seq<Step>)
    requires ProseSpan(xs, a, b) && TagIn(xs, a, n, Opens("a"), ys) && TagIn(ys, b + n, m, Closes("a"), zs)
    ensures Shifted(xs, a, b, zs)
  {
    forall k | 0 <= k < b + n + m ensures if k < a then ProseAt(zs, k) <==> ProseAt(xs, k) else !ProseAt(zs, k) {
      ProseUpToLink(xs, a, b, n, ys, m, zs, k);
    }
    forall k | b <= k < |xs| ensures ProseAt(zs, k + n + m) <==> ProseAt(xs, k) {
      ProseBeyondLink(xs, a, b, n, ys, m, zs, k);
    }
    assert |zs| - |xs| == n + m;
    forall k | b <= k < |xs| ensures ProseAt(zs, k + (|zs| - |xs|)) <==> ProseAt(xs, k) {
      assert k + (|zs| - |xs|) == k + n + m;
    }
  }

  // ---- One in-text link -----------------------------------------------------

  function Spliced(s: string, a: nat, b: nat, href: string): (u: string)
    requires a <= b <= |s|
    ensures |u| == |s| + |OpenTag(href)| + |CLOSE|
  {
    Wrapped(s, a, b, OpenTag(href), CLOSE)
  }

  lemma OpenIsTag(href: string)
    requires '>' !in href
    ensures OneTag(OpenTag(href)) && MarkOf(OpenTag(href)) == Opens("a")
  {
    var m := OpenTag(href);
    var n := |"<a " + MARK + " href=\""|;
    assert m == ("<a " + MARK + " href=\"") + href + "\">";
    assert forall i :: 0 <= i < n ==> m[i] != '>';
    assert forall i :: n <= i < n + |href| ==> m[i] == href[i - n];
    assert m[|m| - 2] == '"' && m[|m| - 1] == '>';
    assert m[0] == '<' && m[1] == 'a' && m[2] == ' ';
    NameIsA(m[1..]);
  }

  lemma CloseIsTag()
    ensures OneTag(CLOSE) && MarkOf(CLOSE) == Closes("a")
  {
    NameIsA(CLOSE[2..]);
  }

  lemma NameIsA(t: string)
    requires |t| >= 2 && t[0] == 'a' && (t[1] == ' ' || t[1] == '>')
    ensures Lower(Name(t)) == "a"
  {
    assert Name(t[1..]) == [];
    assert Name(t) == "a";
    assert Lower("a") == "a";
  }

  predicate SettledLink(s: string, a: nat, b: nat) {
    Settled(s, a) && forall k :: a <= k < b ==> !Dangling(s, k, b)
  }

  lemma SettledAfterOpen(s: string, a: nat, b: nat, open: string)
    requires a < b <= |s| && OneTag(open) && SettledLink(s, a, b)
    ensures Settled(Inserted(s, a, open), b + |open|)
  {
    var end := b + |open|;
    forall k | 0 <= k < end ensures !Dangling(Inserted(s, a, open), k, end) { NotDanglingMoved(s, a, b, open, k); }
  }

  function Wrapped(s: string, a: nat, b: nat, open: string, close: string): (u: string)
    requires a <= b <= |s|
    ensures |u| == |s| + |open| + |close|
  {
    s[..a] + open + s[a..b] + close + s[b..]
  }

  lemma WrappedTwice(s: string, a: nat, b: nat, open: string, close: string)
    requires a <= b <= |s|
    ensures Inserted(Inserted(s, a, open), b + |open|, close) == Wrapped(s, a, b, open, close)
  {
    var u := Inserted(s, a, open);
    InsertedIs(s, a, open);
    InsertedIs(u, b + |open|, close);
    assert u[..b + |open|] == s[..a] + open + s[a..b];
    assert u[b + |open|..] == s[b..];
  }

  lemma OpenTagIn(s: string, a: nat, b: nat, open: string)
    requires ProseSpan(Steps(s), a, b) && Settled(s, a) && OneTag(open) && MarkOf(open) == Opens("a")
    ensures TagIn(Steps(s), a, |open|, Opens("a"), Steps(Inserted(s, a, open)))
  {
    ProseRun(Steps(s), a, b);
    InsertTag(s, a, open);
  }

  lemma ReachedInLink(xs: seq<Step>, a: nat, b: nat, n: nat, ys: seq<Step>, k: nat)
    requires ProseSpan(xs, a, b) && TagIn(xs, a, n, Opens("a"), ys) && a <= k < b
    ensures Reach(ys, [], 0, k + n).Some? && Reach(ys, [], 0, b + n).Some?
  {
    LinkedWords(xs, a, b, n, ys);
  }

  lemma CloseTagIn(s: string, a: nat, b: nat, open: string, u: string, close: string)
    requires a < b <= |s| && SettledLink(s, a, b) && u == Inserted(s, a, open) && OneTag(open)
    requires OneTag(close) && MarkOf(close) == Closes("a") && Reach(Steps(u), [], 0, b + |open|).Some?
    ensures TagIn(Steps(u), b + |open|, |close|, Closes("a"), Steps(Inserted(u, b + |open|, close)))
  {
    SettledAfterOpen(s, a, b, open);
    InsertTag(u, b + |open|, close);
  }

  lemma LinkIn(s: string, a: nat, b: nat, open: string, u: string, close: string)
    requires ProseSpan(Steps(s), a, b) && SettledLink(s, a, b) && u == Inserted(s, a, open)
    requires OneTag(open) && MarkOf(open) == Opens("a") && OneTag(close) && MarkOf(close) == Closes("a")
    ensures Shifted(Steps(s), a, b, Steps(Inserted(u, b + |open|, close)))
  {
    OpenTagIn(s, a, b, open);
    ReachedInLink(Steps(s), a, b, |open|, Steps(u), a);
    CloseTagIn(s, a, b, open, u, close);
    LinkShifts(Steps(s), a, b, |open|, Steps(u), |close|, Steps(Inserted(u, b + |open|, close)));
  }

  predicate IsTag(t: string, mark: Mark) { OneTag(t) && MarkOf(t) == mark }

  lemma WrapKeepsProse(s: string, a: nat, b: nat, open: string, close: string)
    requires ProseSpan(Steps(s), a, b) && SettledLink(s, a, b) && IsTag(open, Opens("a")) && IsTag(close, Closes("a"))
    ensures Shifted(Steps(s), a, b, Steps(Wrapped(s, a, b, open, close)))
  {
    WrappedTwice(s, a, b, open, close);
    LinkIn(s, a, b, open, Inserted(s, a, open), close);
  }

  /** A link into settled prose takes its own words out of the prose and moves the rest. */
  lemma SpliceKeepsProse(s: string, a: nat, b: nat, href: string)
    requires ProseSpan(Steps(s), a, b) && '>' !in href && SettledLink(s, a, b)
    ensures Shifted(Steps(s), a, b, Steps(Spliced(s, a, b, href)))
  {
    OpenIsTag(href);
    CloseIsTag();
    WrapKeepsProse(s, a, b, OpenTag(href), CLOSE);
  }

  // ---- Exactly when the rescan agrees ---------------------------------------

  lemma MatchEnds(s: string, i: nat)
    requires i < |s|
    ensures i + MatchLen(s[i..]) <= |s| && (MatchLen(s[i..]) > 0 ==> s[i + MatchLen(s[i..]) - 1] == '>')
  {
  }

  lemma NoneAfter(s: string, k: nat)
    requires k <= |s| && '>' !in s[k..]
    ensures forall j :: k <= j < |s| ==> s[j] != '>'
  {
    assert forall j :: k <= j < |s| ==> s[k..][j - k] == s[j];
  }

  /** A tag that nothing closes is not a match, and nothing matches after it. */
  lemma NothingMatches(s: string, k: nat, i: nat)
    requires k <= i < |s| && '>' !in s[k..]
    ensures Steps(s)[i].len == 0
  {
    NoneAfter(s, k);
    MatchEnds(s, i);
    StepsAt(s, i);
  }

  /** A scan arrives at any place no step jumps over. */
  lemma {:induction false} ReachesLandmark(xs: seq<Step>, stack: seq<string>, i: nat, k: nat)
    requires i <= k <= |xs| && forall j :: i <= j < k ==> j + xs[j].len <= k
    ensures Reach(xs, stack, i, k).Some?
    decreases k - i
  {
    if i < k {
      ReachesLandmark(xs, Next(xs[i], stack), i + Move(xs[i]), k);
    }
  }

  /** No match reaches past a place after which there is no `>`. */
  lemma ReachesLastTag(s: string, k: nat)
    requires k <= |s| && '>' !in s[k..]
    ensures Reach(Steps(s), [], 0, k).Some?
  {
    NoneAfter(s, k);
    forall j | 0 <= j < k ensures j + Steps(s)[j].len <= k {
      MatchEnds(s, j);
      StepsAt(s, j);
    }
    ReachesLandmark(Steps(s), [], 0, k);
  }

  /** From such a place on, the open elements and the prose are the same throughout. */
  lemma TailIsUniform(xs: seq<Step>, i: nat, stack: seq<string>, k: nat)
    requires i <= k < |xs| && Reach(xs, [], 0, i) == Some(stack) && forall j :: i <= j < |xs| ==> xs[j].len == 0
    ensures ProseAt(xs, k) <==> Allowed(stack)
  {
    ReachPlain(xs, stack, i, k);
    ReachFrom(xs, [], 0, i, k);
  }

  lemma DanglingIsProse(s: string, i: nat, a: nat)
    requires Dangling(s, i, a) && a < |s| && Prose(s, a)
    ensures Prose(s, i)
  {
    ReachesLastTag(s, i);
    forall j | i <= j < |s| ensures Steps(s)[j].len == 0 { NothingMatches(s, i, j); }
    var stack := Reach(Steps(s), [], 0, i).value;
    TailIsUniform(Steps(s), i, stack, a);
    TailIsUniform(Steps(s), i, stack, i);
  }

  /** A tag left open before the link swallows the link's opening tag. */
  lemma DanglingBreaks(s: string, a: nat, b: nat, open: string, close: string, i: nat)
    requires ProseSpan(Steps(s), a, b) && Dangling(s, i, a) && OneTag(open)
    ensures !Shifted(Steps(s), a, b, Steps(Wrapped(s, a, b, open, close)))
  {
    assert ProseAt(Steps(s), a);
    DanglingIsProse(s, i, a);
    var u := Wrapped(s, a, b, open, close);
    assert u[i..] == s[i..a] + open + (s[a..b] + close + s[b..]);
    MatchAtInsert(s[i..a], open, s[a..b] + close + s[b..]);
    StepsAt(u, i);
    assert Prose(s, i) && !Prose(u, i);
  }

  /** The first place in the linked words where a tag is left open. */
  function FirstDangling(s: string, from: nat, b: nat): (r: Option<nat>)
    requires from <= b <= |s|
    ensures r.Some? ==> from <= r.value < b && Dangling(s, r.value, b)
    ensures forall k :: from <= k < (if r.Some? then r.value else b) ==> !Dangling(s, k, b)
    decreases b - from
  {
    if from == b then None else if Dangling(s, from, b) then Some(from) else FirstDangling(s, from + 1, b)
  }

  /** The closing tag of the link ends the tag its words left open. */
  lemma JoinedTag(x: string, close: string, y: string)
    requires TagStart(x) && '>' !in x && OneTag(close)
    ensures StepAt(x + close + y) == Step(|x| + |close|, MarkOf(x + close))
  {
    var t := x + close + y;
    assert t[|x| + |close| - 1] == '>';
    assert forall i :: 1 <= i < |x| + |close| - 1 ==> t[i] == (x + close)[i];
    assert MatchLen(t) == |x| + |close|;
    assert t[..|x| + |close|] == x + close;
  }

  /** Up to the tag its words leave open, a link is scanned as usual; that tag is one step
      that ends with the link, and the old steps follow. */
  ghost predicate Swallowed(ys: seq<Step>, k: nat, end: nat, m: nat, mark: Mark, zs: seq<Step>) {
    && k < end <= |ys| && |zs| == |ys| + m
    && (forall p :: 0 <= p <= k ==> Reach(zs, [], 0, p) == Reach(ys, [], 0, p))
    && (forall p :: 0 <= p < k && Reach(ys, [], 0, p).Some? ==> zs[p] == ys[p])
    && zs[k] == Step(end + m - k, mark)
    && (forall p :: end <= p < |ys| ==> zs[p + m] == ys[p])
  }

  /** The tag the words leave open becomes one step, up to the end of the closing tag. */
  lemma SwallowedStep(u: string, k: nat, end: nat, close: string)
    requires OneTag(close) && Dangling(u, k, end)
    ensures Steps(Inserted(u, end, close))[k] == Step(end + |close| - k, MarkOf(u[k..end] + close))
  {
    assert '>' !in u[k..end] by { NoneAfter(u, k); }
    InsertedFrom(u, end, close, k);
    JoinedTag(u[k..end], close, u[end..]);
    StepsFrom(Inserted(u, end, close), k, u[k..end] + close + u[end..]);
  }

  /** Everything ahead of that tag is scanned as before. */
  lemma BeforeSwallowed(u: string, k: nat, end: nat, close: string, p: nat)
    requires OneTag(close) && p <= k < end <= |u| && NotBefore(u, k, end)
    requires Reach(Steps(u), [], 0, k).Some? && Reach(Steps(u), [], 0, end).Some?
    ensures Reach(Steps(Inserted(u, end, close)), [], 0, p) == Reach(Steps(u), [], 0, p)
    ensures p < k && Reach(Steps(u), [], 0, p).Some? ==> Steps(Inserted(u, end, close))[p] == Steps(u)[p]
  {
    var ys, zs := Steps(u), Steps(Inserted(u, end, close));
    forall j | 0 <= j < k && Reach(ys, [], 0, j).Some? ensures zs[j] == ys[j] {
      StepInside(ys, j, end);
      StepBefore(u, end, close, j);
    }
    ReachAgrees(ys, zs, [], 0, k, p);
  }

  lemma InsertIntoDangling(u: string, k: nat, end: nat, close: string)
    requires OneTag(close) && Dangling(u, k, end) && NotBefore(u, k, end)
    requires Reach(Steps(u), [], 0, k).Some? && Reach(Steps(u), [], 0, end).Some?
    ensures Swallowed(Steps(u), k, end, |close|, MarkOf(u[k..end] + close), Steps(Inserted(u, end, close)))
  {
    var ys, zs := Steps(u), Steps(Inserted(u, end, close));
    forall p | 0 <= p <= k
      ensures Reach(zs, [], 0, p) == Reach(ys, [], 0, p)
      ensures p < k && Reach(ys, [], 0, p).Some? ==> zs[p] == ys[p]
    {
      BeforeSwallowed(u, k, end, close, p);
    }
    SwallowedStep(u, k, end, close);
    forall p | end <= p < |u| ensures zs[p + |close|] == ys[p] { InsertedLater(u, end, close, p); }
  }

  lemma SwallowedProse(ys: seq<Step>, k: nat, end: nat, m: nat, mark: Mark, zs: seq<Step>, stack: seq<string>)
    requires Swallowed(ys, k, end, m, mark, zs) && Reach(ys, [], 0, k) == Some(stack)
    requires forall j :: end <= j < |ys| ==> ys[j].len == 0
    ensures forall p :: 0 <= p < k ==> (ProseAt(zs, p) <==> ProseAt(ys, p))
    ensures forall p :: k <= p < end + m ==> !ProseAt(zs, p)
    ensures forall p :: end + m <= p < |zs| ==> (ProseAt(zs, p) <==> Allowed(After(stack, mark)))
  {
    TagStep(zs, k, end + m - k, mark, stack);
    forall j | end + m <= j < |zs| ensures zs[j].len == 0 { assert zs[(j - m) + m] == ys[j - m]; }
    forall p | end + m <= p < |zs| ensures ProseAt(zs, p) <==> Allowed(After(stack, mark)) {
      TailIsUniform(zs, end + m, After(stack, mark), p);
    }
  }

  lemma TagStep(ys: seq<Step>, at: nat, n: nat, mark: Mark, stack: seq<string>)
    requires 0 < n && at + n <= |ys| && ys[at] == Step(n, mark) && Reach(ys, [], 0, at) == Some(stack)
    ensures Reach(ys, [], 0, at + n) == Some(After(stack, mark))
    ensures forall k :: at <= k < at + n ==> !ProseAt(ys, k)
  {
    ReachNext(ys, [], 0, at);
  }

  lemma SwallowShifts(xs: seq<Step>, a: nat, b: nat, n: nat, ys: seq<Step>, k: nat, m: nat, mark: Mark, zs: seq<Step>)
    requires ProseSpan(xs, a, b) && TagIn(xs, a, n, Opens("a"), ys) && a <= k < b
    requires Swallowed(ys, k + n, b + n, m, mark, zs) && forall j :: b <= j < |xs| ==> xs[j].len == 0
    ensures Reach(xs, [], 0, a).Some?
    ensures Shifted(xs, a, b, zs) <==> b == |xs| || Allowed(After(Reach(xs, [], 0, a).value + ["a"], mark))
  {
    ProseRun(xs, a, b);
    var stack := Reach(xs, [], 0, a).value;
    TailIsProse(xs, b, stack);
    SwallowedLink(xs, a, b, n, ys, k, m, mark, zs, stack);
    UniformShift(xs, a, b, zs, Allowed(After(stack + ["a"], mark)));
  }

  lemma TailIsProse(xs: seq<Step>, b: nat, stack: seq<string>)
    requires b <= |xs| && Reach(xs, [], 0, b) == Some(stack) && Allowed(stack)
    requires forall j :: b <= j < |xs| ==> xs[j].len == 0
    ensures forall j :: b <= j < |xs| ==> ProseAt(xs, j)
  {
    forall j | b <= j < |xs| ensures ProseAt(xs, j) { TailIsUniform(xs, b, stack, j); }
  }

  lemma SwallowedLink(xs: seq<Step>, a: nat, b: nat, n: nat, ys: seq<Step>, k: nat, m: nat, mark: Mark,
                      zs: seq<Step>, stack: seq<string>)
    requires ProseSpan(xs, a, b) && TagIn(xs, a, n, Opens("a"), ys) && a <= k < b
    requires Swallowed(ys, k + n, b + n, m, mark, zs) && forall j :: b <= j < |xs| ==> xs[j].len == 0
    requires Reach(xs, [], 0, a) == Some(stack)
    ensures |zs| == |xs| + n + m
    ensures forall p :: 0 <= p < a ==> (ProseAt(zs, p) <==> ProseAt(xs, p))
    ensures forall p :: a <= p < b + n + m ==> !ProseAt(zs, p)
    ensures forall p :: b + n + m <= p < |zs| ==> (ProseAt(zs, p) <==> Allowed(After(stack + ["a"], mark)))
  {
    LinkedWords(xs, a, b, n, ys);
    TagTaken(xs, a, n, Opens("a"), ys);
    forall j | b + n <= j < |ys| ensures ys[j].len == 0 { assert ys[(j - n) + n] == xs[j - n]; }
    SwallowedProse(ys, k + n, b + n, m, mark, zs, stack + ["a"]);
  }

  lemma UniformShift(xs: seq<Step>, a: nat, b: nat, zs: seq<Step>, good: bool)
    requires a < b <= |xs| <= |zs|
    requires forall p :: 0 <= p < a ==> (ProseAt(zs, p) <==> ProseAt(xs, p))
    requires forall p :: a <= p < b + (|zs| - |xs|) ==> !ProseAt(zs, p)
    requires forall p :: b + (|zs| - |xs|) <= p < |zs| ==> (ProseAt(zs, p) <==> good)
    requires forall j :: b <= j < |xs| ==> ProseAt(xs, j)
    ensures Shifted(xs, a, b, zs) <==> b == |xs| || good
  {
    if b < |xs| { assert ProseAt(xs, b) && (ProseAt(zs, b + (|zs| - |xs|)) <==> good); }
  }

  /** Whether a rescan sees the new link as a link: no tag is left open ahead of it, and one
      left open by its own words leaves the rest of the post prose. */
  predicate RescanSafe(s: string, a: nat, b: nat) {
    && a <= b <= |s| && Settled(s, a)
    && match FirstDangling(s, a, b)
       case None => true
       case Some(k) =>
         b == |s| || (Reach(Steps(s), [], 0, a).Some?
                      && Allowed(After(Reach(Steps(s), [], 0, a).value + ["a"], MarkOf(s[k..b] + CLOSE))))
  }

  predicate NotBefore(u: string, k: nat, end: nat) {
    forall j :: 0 <= j < k ==> !Dangling(u, j, end)
  }

  lemma InsertedShift(s: string, a: nat, ins: string, i: nat, j: nat)
    requires a <= i <= j <= |s|
    ensures Inserted(s, a, ins)[i + |ins|..j + |ins|] == s[i..j] && Inserted(s, a, ins)[i + |ins|..] == s[i..]
  {
    InsertedBeyond(s, a, ins, i);
    var u := Inserted(s, a, ins);
    assert u[i + |ins|..j + |ins|] == u[i + |ins|..][..j - i] && s[i..j] == s[i..][..j - i];
  }

  /** Nothing up to the end of the inserted tag is left open. */
  lemma ClosedByTag(s: string, a: nat, open: string, j: nat)
    requires j < a + |open| && a <= |s| && OneTag(open)
    ensures '>' in Inserted(s, a, open)[j..]
  {
    InsertedIs(s, a, open);
    var u, last := Inserted(s, a, open), a + |open| - 1;
    assert u[last] == open[|open| - 1] == '>';
    assert u[j..][last - j] == u[last];
  }

  lemma NotDanglingMoved(s: string, a: nat, b: nat, open: string, j: nat)
    requires a <= b <= |s| && OneTag(open) && j < b + |open|
    requires j >= a + |open| ==> !Dangling(s, j - |open|, b)
    ensures !Dangling(Inserted(s, a, open), j, b + |open|)
  {
    if j < a + |open| { ClosedByTag(s, a, open, j); } else { InsertedShift(s, a, open, j - |open|, b); }
  }

  lemma DanglingStays(s: string, a: nat, b: nat, open: string, k: nat)
    requires a <= k < b <= |s| && Dangling(s, k, b)
    ensures Dangling(Inserted(s, a, open), k + |open|, b + |open|)
  {
    InsertedShift(s, a, open, k, b);
  }

  lemma NoneEarlier(s: string, a: nat, b: nat, open: string, k: nat)
    requires a <= k < b <= |s| && OneTag(open) && forall j :: a <= j < k ==> !Dangling(s, j, b)
    ensures NotBefore(Inserted(s, a, open), k + |open|, b + |open|)
  {
    var end := b + |open|;
    forall j | 0 <= j < k + |open| ensures !Dangling(Inserted(s, a, open), j, end) {
      NotDanglingMoved(s, a, b, open, j);
    }
  }

  lemma DanglingMoved(s: string, a: nat, b: nat, open: string, k: nat)
    requires a <= k < b <= |s| && OneTag(open) && FirstDangling(s, a, b) == Some(k)
    ensures Inserted(s, a, open)[k + |open|..b + |open|] == s[k..b]
    ensures Dangling(Inserted(s, a, open), k + |open|, b + |open|)
    ensures NotBefore(Inserted(s, a, open), k + |open|, b + |open|)
  {
    InsertedShift(s, a, open, k, b);
    DanglingStays(s, a, b, open, k);
    NoneEarlier(s, a, b, open, k);
  }

  lemma DanglingSwallowed(s: string, a: nat, b: nat, open: string, u: string, close: string, k: nat)
    requires a <= k < b <= |s| && OneTag(open) && OneTag(close) && FirstDangling(s, a, b) == Some(k) && u == Inserted(s, a, open)
    requires Reach(Steps(u), [], 0, k + |open|).Some? && Reach(Steps(u), [], 0, b + |open|).Some?
    ensures Swallowed(Steps(u), k + |open|, b + |open|, |close|, MarkOf(s[k..b] + close), Steps(Inserted(u, b + |open|, close)))
  {
    DanglingMoved(s, a, b, open, k);
    InsertIntoDangling(u, k + |open|, b + |open|, close);
  }

  lemma TailHasNoTags(s: string, k: nat, b: nat)
    requires k <= b <= |s| && '>' !in s[k..]
    ensures forall j :: b <= j < |s| ==> Steps(s)[j].len == 0
  {
    forall j | b <= j < |s| ensures Steps(s)[j].len == 0 { NothingMatches(s, k, j); }
  }

  lemma DanglingWords(s: string, a: nat, b: nat, open: string, u: string, close: string, k: nat)
    requires ProseSpan(Steps(s), a, b) && IsTag(open, Opens("a")) && OneTag(close) && u == Inserted(s, a, open)
    requires FirstDangling(s, a, b) == Some(k) && TagIn(Steps(s), a, |open|, Opens("a"), Steps(u))
    requires Reach(Steps(s), [], 0, a).Some?
    ensures Shifted(Steps(s), a, b, Steps(Inserted(u, b + |open|, close))) <==>
      b == |s| || Allowed(After(Reach(Steps(s), [], 0, a).value + ["a"], MarkOf(s[k..b] + close)))
  {
    ReachedInLink(Steps(s), a, b, |open|, Steps(u), k);
    DanglingSwallowed(s, a, b, open, u, close, k);
    TailHasNoTags(s, k, b);
    SwallowShifts(Steps(s), a, b, |open|, Steps(u), k, |close|, MarkOf(s[k..b] + close),
                  Steps(Inserted(u, b + |open|, close)));
  }

  lemma WrapExact(s: string, a: nat, b: nat, open: string, close: string, k: nat)
    requires ProseSpan(Steps(s), a, b) && Settled(s, a) && IsTag(open, Opens("a")) && IsTag(close, Closes("a"))
    requires FirstDangling(s, a, b) == Some(k) && Reach(Steps(s), [], 0, a).Some?
    ensures Shifted(Steps(s), a, b, Steps(Wrapped(s, a, b, open, close))) <==>
      b == |s| || Allowed(After(Reach(Steps(s), [], 0, a).value + ["a"], MarkOf(s[k..b] + close)))
  {
    OpenTagIn(s, a, b, open);
    WrappedTwice(s, a, b, open, close);
    DanglingWords(s, a, b, open, Inserted(s, a, open), close, k);
  }

  /** Rescanning after a splice gives the old prose, cut and moved, exactly when the link is
      safe from tags left open. */
  lemma RescanExact(s: string, a: nat, b: nat, href: string)
    requires ProseSpan(Steps(s), a, b) && '>' !in href
    ensures Shifted(Steps(s), a, b, Steps(Spliced(s, a, b, href))) <==> RescanSafe(s, a, b)
  {
    OpenIsTag(href);
    CloseIsTag();
    if !Settled(s, a) {
      var i :| 0 <= i < a && Dangling(s, i, a);
      DanglingBreaks(s, a, b, OpenTag(href), CLOSE, i);
    } else if FirstDangling(s, a, b).None? {
      WrapKeepsProse(s, a, b, OpenTag(href), CLOSE);
    } else {
      ProseRun(Steps(s), a, b);
      WrapExact(s, a, b, OpenTag(href), CLOSE, FirstDangling(s, a, b).value);
    }
  }
}
