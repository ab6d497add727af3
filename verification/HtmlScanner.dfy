/** Raw post content as the splicer reads it: tags and comments, the elements open at each
    position, and the positions that are ordinary prose.

    Scanning is on characters, and follows the two alternatives of the tag pattern: a
    comment runs to the first `-->`, a tag to the first `>` after its name. */
module HtmlScanner {
  import opened Prelude

  const SPLICE_OK: set<string> := {
    "div", "section", "article", "main", "ul", "ol", "dl", "p", "li", "dd",
    "em", "strong", "b", "i", "u", "span", "small", "sub", "sup", "mark"}

  const SPLICE_TEXT: set<string> := {"p", "li", "dd"}

  const VOID: set<string> := {
    "area", "base", "br", "col", "embed", "hr", "img", "input", "link", "meta", "param",
    "source", "track", "wbr"}

  // ---- One match ------------------------------------------------------------

  predicate Letter(c: char) { 'a' <= c <= 'z' || 'A' <= c <= 'Z' }

  function LowerChar(c: char): char {
    if 'A' <= c <= 'Z' then ((c as int) + 32) as char else c
  }

  function Lower(s: string): (r: string)
    ensures |r| == |s| && forall i :: 0 <= i < |s| ==> r[i] == LowerChar(s[i])
  {
    if s == [] then [] else [LowerChar(s[0])] + Lower(s[1..])
  }

  predicate Space(c: char) {
    || '\t' <= c <= '\r' || '\U{1c}' <= c <= ' ' || c == '\U{85}' || c == '\U{a0}' || c == '\U{1680}'
    || '\U{2000}' <= c <= '\U{200a}' || c == '\U{2028}' || c == '\U{2029}' || c == '\U{202f}'
    || c == '\U{205f}' || c == '\U{3000}'
  }

  predicate TagStart(t: string) {
    |t| >= 2 && t[0] == '<' && (Letter(t[1]) || (t[1] == '/' && |t| >= 3 && Letter(t[2])))
  }

  predicate CommentStart(t: string) {
    |t| >= 4 && t[0] == '<' && t[1] == '!' && t[2] == '-' && t[3] == '-'
  }

  predicate ArrowAt(t: string, j: nat) {
    j + 2 < |t| && t[j] == '-' && t[j + 1] == '-' && t[j + 2] == '>'
  }

  /** The first `>` at or after `from`. */
  function NextGt(t: string, from: nat): (r: Option<nat>)
    ensures r.Some? ==> from <= r.value < |t| && t[r.value] == '>'
    ensures forall j :: from <= j < |t| && t[j] == '>' ==> r.Some? && r.value <= j
    decreases |t| - from
  {
    if from >= |t| then None else if t[from] == '>' then Some(from) else NextGt(t, from + 1)
  }

  /** The first `-->` at or after `from`. */
  function NextArrow(t: string, from: nat): (r: Option<nat>)
    ensures r.Some? ==> from <= r.value && ArrowAt(t, r.value)
    ensures forall j :: from <= j && ArrowAt(t, j) ==> r.Some? && r.value <= j
    decreases |t| - from
  {
    if from >= |t| then None else if ArrowAt(t, from) then Some(from) else NextArrow(t, from + 1)
  }

  /** How long a tag or comment starts this text, or 0 when none does. */
  function MatchLen(t: string): (n: nat)
    ensures n <= |t| && (n > 0 ==> n >= 3 && t[n - 1] == '>')
  {
    if CommentStart(t) then
      match NextArrow(t, 4) case Some(j) => j + 3 case None => 0
    else if TagStart(t) then
      match NextGt(t, 1) case Some(j) => j + 1 case None => 0
    else 0
  }

  /** A match does not depend on what follows it. */
  lemma MatchIsLocal(t: string, u: string)
    requires MatchLen(t) > 0 && |u| >= MatchLen(t) && u[..MatchLen(t)] == t[..MatchLen(t)]
    ensures MatchLen(u) == MatchLen(t)
  {
    var n := MatchLen(t);
    assert forall i :: 0 <= i < n ==> u[i] == t[..n][i];
    if CommentStart(t) {
      assert ArrowAt(u, n - 3);
      forall j | 4 <= j && ArrowAt(u, j) ensures j >= n - 3 {
        if j < n - 3 { assert ArrowAt(t, j); }
      }
    } else {
      assert u[n - 1] == '>';
      forall j | 1 <= j < n - 1 ensures u[j] != '>' {
        assert t[j] == u[j];
      }
    }
  }

  datatype Mark = Inert | Opens(name: string) | Closes(name: string)

  /** The characters of a name: everything up to white space, a slash or `>`. */
  function Name(t: string): string {
    if t == [] || Space(t[0]) || t[0] == '/' || t[0] == '>' then [] else [t[0]] + Name(t[1..])
  }

  /** What one matched tag or comment does to the open elements. */
  function MarkOf(m: string): Mark {
    if !TagStart(m) then Inert
    else if m[1] == '/' then Closes(Lower(Name(m[2..])))
    else
      var name := Lower(Name(m[1..]));
      if m[|m| - 2] == '/' || name in VOID then Inert else Opens(name)
  }

  /** The last place `name` is in `stack`. */
  function LastIndex(stack: seq<string>, name: string): (i: nat)
    requires name in stack
    ensures i < |stack| && stack[i] == name && name !in stack[i + 1..]
  {
    if stack[|stack| - 1] == name then |stack| - 1 else
      var i := LastIndex(stack[..|stack| - 1], name);
      assert stack[i + 1..] == stack[..|stack| - 1][i + 1..] + [stack[|stack| - 1]];
      i
  }

  /** The open elements after a tag: a closing tag closes the innermost element of its
      name, with everything inside it, and is ignored when there is none. */
  function After(stack: seq<string>, mark: Mark): seq<string> {
    match mark
    case Inert => stack
    case Opens(name) => stack + [name]
    case Closes(name) => if name in stack then stack[..LastIndex(stack, name)] else stack
  }

  // ---- The whole text -------------------------------------------------------

  /** What starts at one position: how long it is, 0 for ordinary text, and what it does. */
  datatype Step = Step(len: nat, mark: Mark)

  function StepAt(t: string): (st: Step)
    ensures st.len == MatchLen(t)
  {
    Step(MatchLen(t), if MatchLen(t) == 0 then Inert else MarkOf(t[..MatchLen(t)]))
  }

  /** Every match ends inside the text. */
  predicate Bounded(steps: seq<Step>) {
    forall i :: 0 <= i < |steps| ==> i + steps[i].len <= |steps|
  }

  /** What starts at every position of the text. */
  function Steps(t: string): (steps: seq<Step>)
    ensures |steps| == |t|
  {
    if t == [] then [] else [StepAt(t)] + Steps(t[1..])
  }

  lemma {:induction false} StepsAt(t: string, i: nat)
    requires i < |t|
    ensures Steps(t)[i] == StepAt(t[i..])
  {
    if i == 0 {
      assert t[0..] == t;
    } else {
      StepsAt(t[1..], i - 1);
      assert t[1..][i - 1..] == t[i..];
    }
  }

  lemma StepsBounded(t: string)
    ensures Bounded(Steps(t))
  {
    forall i | 0 <= i < |t| ensures i + Steps(t)[i].len <= |t| { StepsAt(t, i); }
  }

  function Move(st: Step): (n: nat)
    ensures n > 0
  {
    if st.len == 0 then 1 else st.len
  }

  function Next(st: Step, stack: seq<string>): seq<string> {
    if st.len == 0 then stack else After(stack, st.mark)
  }

  /** The elements open when a scan from `i` arrives at `k`, or nothing when `k` is inside a
      tag or comment. */
  function Reach(steps: seq<Step>, stack: seq<string>, i: nat, k: nat): Option<seq<string>>
    requires i <= k <= |steps|
    decreases k - i
  {
    if i == k then Some(stack)
    else if k < i + Move(steps[i]) then None
    else Reach(steps, Next(steps[i], stack), i + Move(steps[i]), k)
  }

  predicate Allowed(stack: seq<string>) {
    && (forall name :: name in stack ==> name in SPLICE_OK)
    && (stack == [] || exists name :: name in stack && name in SPLICE_TEXT)
  }

  /** Ordinary prose: outside every tag and comment, with every open element listed, and
      either nothing open or some text container. */
  predicate ProseAt(steps: seq<Step>, k: nat) {
    && k < |steps| && steps[k].len == 0
    && Reach(steps, [], 0, k).Some? && Allowed(Reach(steps, [], 0, k).value)
  }

  predicate Prose(t: string, k: nat) { ProseAt(Steps(t), k) }

  /** A scan can be taken up again wherever it arrives. */
  lemma {:induction false} ReachFrom(steps: seq<Step>, stack: seq<string>, i: nat, a: nat, k: nat)
    requires i <= a <= k <= |steps| && Reach(steps, stack, i, a).Some?
    ensures Reach(steps, stack, i, k) == Reach(steps, Reach(steps, stack, i, a).value, a, k)
    decreases a - i
  {
    if i < a {
      ReachFrom(steps, Next(steps[i], stack), i + Move(steps[i]), a, k);
    }
  }

  /** One step further. */
  lemma ReachNext(steps: seq<Step>, stack: seq<string>, i: nat, a: nat)
    requires i <= a < |steps| && Reach(steps, stack, i, a).Some? && a + Move(steps[a]) <= |steps|
    ensures Reach(steps, stack, i, a + Move(steps[a])) == Some(Next(steps[a], Reach(steps, stack, i, a).value))
    ensures forall j :: a < j < a + Move(steps[a]) ==> Reach(steps, stack, i, j) == None
  {
    ReachFrom(steps, stack, i, a, a + Move(steps[a]));
    forall j | a < j < a + Move(steps[a]) ensures Reach(steps, stack, i, j) == None {
      ReachFrom(steps, stack, i, a, j);
    }
  }

  /** Text without tags leaves whatever is open as it is. */
  lemma {:induction false} ReachPlain(steps: seq<Step>, stack: seq<string>, i: nat, k: nat)
    requires i <= k <= |steps| && forall j :: i <= j < k ==> steps[j].len == 0
    ensures Reach(steps, stack, i, k) == Some(stack)
    decreases k - i
  {
    if i < k {
      ReachPlain(steps, stack, i + 1, k);
    }
  }

  /** What a scan finds depends only on what is ahead of it. */
  lemma {:induction false} ReachAhead(xs: seq<Step>, i: nat, ys: seq<Step>, j: nat, stack: seq<string>, n: nat)
    requires i + n <= |xs| && j + n <= |ys| && xs[i..i + n] == ys[j..j + n]
    ensures Reach(xs, stack, i, i + n) == Reach(ys, stack, j, j + n)
    decreases n
  {
    if n > 0 {
      assert xs[i] == xs[i..i + n][0] && ys[j] == ys[j..j + n][0];
      var m := Move(xs[i]);
      if m <= n {
        assert xs[i + m..i + n] == xs[i..i + n][m..] && ys[j + m..j + n] == ys[j..j + n][m..];
        ReachAhead(xs, i + m, ys, j + m, Next(xs[i], stack), n - m);
      }
    }
  }
}
