/** The attribute that marks a link of ours: where it is, how many there are, and what an
    edit does to them. */
module InTextMarks {
  import opened Prelude
  import opened LinkSplice

  predicate MarkAt(s: string, p: nat) {
    p + |MARK| <= |s| && s[p..p + |MARK|] == MARK
  }

  /** `finditer`: left to right, each search starting after the last match. */
  function MarkList(s: string, from: nat): (r: seq<nat>)
    decreases |s| - from
  {
    if from >= |s| then []
    else if MarkAt(s, from) then [from] + MarkList(s, from + |MARK|)
    else MarkList(s, from + 1)
  }

  /** How many positions start a mark. */
  function Count(s: string): nat {
    if s == [] then 0 else (if MarkAt(s, 0) then 1 else 0) + Count(s[1..])
  }

  lemma MarkChars(s: string, p: nat)
    requires MarkAt(s, p)
    ensures p + 23 <= |s| && forall i :: 0 <= i < 23 ==> s[p + i] == MARK[i]
  {
    var found := s[p..p + |MARK|];
    assert forall i :: 0 <= i < 23 ==> found[i] == s[p + i];
  }

  lemma MarkMember(s: string, p: nat, i: nat)
    requires MarkAt(s, p) && p <= i < p + |MARK|
    ensures s[i] in MARK
  {
    MarkChars(s, p);
    assert s[p + (i - p)] == MARK[i - p];
  }

  /** Two marks never overlap. */
  lemma MarksApart(s: string, p: nat, q: nat)
    requires MarkAt(s, p) && MarkAt(s, q) && p < q
    ensures p + |MARK| <= q
  {
    MarkChars(s, p);
    MarkChars(s, q);
    assert forall i :: 1 <= i < 23 ==> MARK[i] != 'd';
    assert s[q + 0] == MARK[0];
  }

  /** The search finds every mark. */
  lemma {:induction false} MarkListFindsAll(s: string, from: nat, p: nat)
    ensures p in MarkList(s, from) <==> from <= p && MarkAt(s, p)
    decreases |s| - from
  {
    if from < |s| {
      if MarkAt(s, from) {
        MarkListFindsAll(s, from + |MARK|, p);
        if from < p && MarkAt(s, p) { MarksApart(s, from, p); }
      } else {
        MarkListFindsAll(s, from + 1, p);
      }
    }
  }

  lemma {:induction false} CountSkips(s: string, from: nat, to: nat)
    requires from <= to <= |s| && forall p :: from <= p < to ==> !MarkAt(s, p)
    ensures Count(s[from..]) == Count(s[to..])
    decreases |s| - from
  {
    if from < to {
      CountSkips(s, from + 1, to);
      CountNext(s, from);
    }
  }

  lemma CountNext(s: string, from: nat)
    requires from < |s|
    ensures Count(s[from..]) == (if MarkAt(s, from) then 1 else 0) + Count(s[from + 1..])
  {
    assert s[from..][1..] == s[from + 1..];
    if from + |MARK| <= |s| { assert s[from..][..|MARK|] == s[from..from + |MARK|]; }
  }

  /** `str.count` counts every mark. */
  lemma {:induction false} MarkListLength(s: string, from: nat)
    ensures |MarkList(s, from)| == if from <= |s| then Count(s[from..]) else 0
    decreases |s| - from
  {
    if from < |s| {
      CountNext(s, from);
      if MarkAt(s, from) {
        MarkListLength(s, from + |MARK|);
        forall p | from + 1 <= p < from + |MARK| ensures !MarkAt(s, p) {
          if MarkAt(s, p) { MarksApart(s, from, p); }
        }
        CountSkips(s, from + 1, from + |MARK|);
      } else {
        MarkListLength(s, from + 1);
      }
    }
  }

  // ---- Joining text ---------------------------------------------------------

  /** No mark runs from `x` into `y`: a character that marks never contain lies between. */
  predicate Parted(x: string, y: string) {
    (y != [] && y[0] !in MARK) || (x != [] && x[|x| - 1] !in MARK) || y == []
  }

  lemma MarkInJoin(x: string, y: string, p: nat)
    requires p < |x|
    ensures MarkAt(x, p) ==> MarkAt(x + y, p)
    ensures Parted(x, y) && MarkAt(x + y, p) ==> MarkAt(x, p)
  {
    if p + |MARK| <= |x| {
      assert (x + y)[p..p + |MARK|] == x[p..p + |MARK|];
    } else if MarkAt(x + y, p) {
      MarkMember(x + y, p, |x|);
      MarkMember(x + y, p, |x| - 1);
    }
  }

  lemma MarkPastJoin(x: string, y: string, p: nat)
    requires p >= |x|
    ensures MarkAt(x + y, p) <==> MarkAt(y, p - |x|)
  {
    if p + |MARK| <= |x + y| { assert (x + y)[p..p + |MARK|] == y[p - |x|..p - |x| + |MARK|]; }
  }

  lemma {:induction false} CountJoin(x: string, y: string)
    ensures Count(x + y) >= Count(x) + Count(y)
    ensures Parted(x, y) ==> Count(x + y) == Count(x) + Count(y)
    decreases |x|
  {
    if x == [] {
      assert x + y == y;
    } else {
      assert (x + y)[1..] == x[1..] + y;
      MarkInJoin(x, y, 0);
      CountJoin(x[1..], y);
      if Parted(x, y) && !Parted(x[1..], y) { LastCharParts(x, y); }
    }
  }

  lemma LastCharParts(x: string, y: string)
    requires |x| == 1 && x[0] !in MARK
    ensures Count(x + y) == Count(x) + Count(y)
  {
    assert (x + y)[1..] == y && x[1..] == [];
    MarkInJoin(x, y, 0);
  }

  // ---- The two kinds of edit ------------------------------------------------

  function BlockBody(href: string, anchor: string): string {
    "<!-- wp:paragraph -->\n<p>" + "Read also: <a href=\"" + href + "\">" + anchor + "</a></p>\n<!-- /wp:paragraph -->"
  }

  /** The appended paragraph. */
  function Block(href: string, anchor: string): string { "\n" + BlockBody(href, anchor) }

  lemma {:induction false} CountNone(s: string)
    requires forall p :: 0 <= p < |s| ==> !MarkAt(s, p)
    ensures Count(s) == 0
  {
    CountSkips(s, 0, |s|);
    assert s[0..] == s && s[|s|..] == [];
  }

  lemma QuotesOfMark(s: string, p: nat)
    requires MarkAt(s, p)
    ensures p + 22 < |s| && s[p + 12] == 'h' && s[p + 14] == '"' && s[p + 22] == '"'
  {
    MarkChars(s, p);
  }

  const FRONT := "<a data-linkmesh=\"in-text\" href=\""

  lemma OpenParts(href: string)
    ensures OpenTag(href) == FRONT + href + "\">"
  {
  }

  lemma OpenQuotes(href: string)
    requires '"' !in href
    ensures forall i :: 0 <= i < |OpenTag(href)| && OpenTag(href)[i] == '"' ==> i == 17 || i == 25 || i == 32 || i == 33 + |href|
  {
    OpenParts(href);
    assert forall i :: 33 <= i < 33 + |href| ==> OpenTag(href)[i] == href[i - 33];
    assert forall i :: 0 <= i < 33 ==> OpenTag(href)[i] == FRONT[i];
    assert forall i :: 0 <= i < 33 && FRONT[i] == '"' ==> i == 17 || i == 25 || i == 32;
  }

  /** The opening tag of a link of ours holds its mark and no other. */
  lemma OpenHoldsOneMark(href: string, p: nat)
    requires '"' !in href
    ensures MarkAt(OpenTag(href), p) <==> p == 3
  {
    OpenParts(href);
    OpenQuotes(href);
    if p == 3 {
      assert OpenTag(href)[3..26] == FRONT[3..26] == MARK;
    } else if MarkAt(OpenTag(href), p) {
      QuotesOfMark(OpenTag(href), p);
    }
  }

  lemma BodyHoldsNoMark(href: string, anchor: string, p: nat)
    requires '"' !in href && '"' !in anchor
    ensures !MarkAt(BlockBody(href, anchor), p)
  {
    var t := BlockBody(href, anchor);
    var front := "<!-- wp:paragraph -->\n<p>" + "Read also: <a href=\"";
    var back := "</a></p>\n<!-- /wp:paragraph -->";
    assert t == front + href + "\">" + anchor + back;
    if MarkAt(t, p) {
      QuotesOfMark(t, p);
    }
  }

  /** The appended paragraph holds none. */
  lemma BlockHoldsNoMark(href: string, anchor: string, p: nat)
    requires '"' !in href && '"' !in anchor
    ensures !MarkAt(Block(href, anchor), p)
  {
    if p == 0 {
      if MarkAt(Block(href, anchor), 0) { MarkMember(Block(href, anchor), 0, 0); }
      assert Block(href, anchor)[0] == '\n' && '\n' !in MARK;
    } else {
      MarkPastJoin("\n", BlockBody(href, anchor), p);
      BodyHoldsNoMark(href, anchor, p - 1);
    }
  }
}
