/** What prose means for markup as people write it: elements opened and closed in turn, with
    words between them. */
module ProseMeaning {
  import opened Prelude
  import opened HtmlScanner
  import opened LinkSplice

  // ---- Elements -------------------------------------------------------------

  /** The elements whose own text is body copy. */
  predicate TextElement(name: string) { name == "p" || name == "li" || name == "dd" }

  /** The structure and the inline formatting that may be open around it. */
  predicate Surrounding(name: string) {
    || name == "div" || name == "section" || name == "article" || name == "main"
    || name == "ul" || name == "ol" || name == "dl"
    || name == "em" || name == "strong" || name == "b" || name == "i" || name == "u"
    || name == "span" || name == "small" || name == "sub" || name == "sup" || name == "mark"
  }

  predicate VoidElement(name: string) {
    || name == "area" || name == "base" || name == "br" || name == "col" || name == "embed"
    || name == "hr" || name == "img" || name == "input" || name == "link" || name == "meta"
    || name == "param" || name == "source" || name == "track" || name == "wbr"
  }

  /** Body copy: only such elements open, and one of them a text element unless none is. */
  ghost predicate BodyCopy(stack: seq<string>) {
    && (forall i :: 0 <= i < |stack| ==> TextElement(stack[i]) || Surrounding(stack[i]))
    && (stack == [] || exists i :: 0 <= i < |stack| && TextElement(stack[i]))
  }

  lemma AllowedIsBodyCopy(stack: seq<string>)
    ensures Allowed(stack) <==> BodyCopy(stack)
  {
    if BodyCopy(stack) && stack != [] {
      var i :| 0 <= i < |stack| && TextElement(stack[i]);
      assert stack[i] in stack;
    }
    if Allowed(stack) {
      forall i | 0 <= i < |stack| ensures TextElement(stack[i]) || Surrounding(stack[i]) { assert stack[i] in stack; }
      if stack != [] {
        var name :| name in stack && name in SPLICE_TEXT;
        var i :| 0 <= i < |stack| && stack[i] == name;
        assert TextElement(stack[i]);
      }
    }
  }

  // ---- Tags -----------------------------------------------------------------

  predicate NameChar(c: char) { Letter(c) || '0' <= c <= '9' }

  predicate PlainName(name: string) {
    name != "" && Letter(name[0]) && forall i :: 0 <= i < |name| ==> NameChar(name[i])
  }

  /** Attributes as far as a tag's end is concerned: nothing, or white space and more. */
  predicate Attributes(s: string) { (s == "" || Space(s[0])) && '>' !in s && (s == "" || s[|s| - 1] != '/') }

  lemma {:induction false} NameEnds(name: string, rest: string)
    requires forall i :: 0 <= i < |name| ==> NameChar(name[i])
    requires rest != "" && (Space(rest[0]) || rest[0] == '/' || rest[0] == '>')
    ensures Name(name + rest) == name
  {
    if name != "" {
      NameEnds(name[1..], rest);
      assert (name + rest)[1..] == name[1..] + rest;
    } else {
      assert name + rest == rest;
    }
  }

  lemma VoidIs(name: string)
    ensures name in VOID <==> VoidElement(name)
  {
  }

  lemma EndsPlain(name: string, attributes: string)
    requires PlainName(name) && Attributes(attributes)
    ensures var m := "<" + name + attributes + ">"; |m| >= 3 && m[1] == name[0] && m[|m| - 2] != '/'
  {
    var m := "<" + name + attributes + ">";
    if attributes == "" {
      assert m[|m| - 2] == name[|name| - 1];
    } else {
      assert m[|m| - 2] == attributes[|attributes| - 1];
    }
  }

  /** An opening tag opens its element, unless that has no content. */
  lemma OpeningTag(name: string, attributes: string)
    requires PlainName(name) && Attributes(attributes)
    ensures MarkOf("<" + name + attributes + ">") == if VoidElement(Lower(name)) then Inert else Opens(Lower(name))
  {
    EndsPlain(name, attributes);
    OpenMark("<" + name + attributes + ">", name, attributes);
  }

  lemma OpenMark(m: string, name: string, attributes: string)
    requires PlainName(name) && Attributes(attributes) && m == "<" + name + attributes + ">"
    requires |m| >= 3 && m[1] == name[0] && m[|m| - 2] != '/'
    ensures MarkOf(m) == if VoidElement(Lower(name)) then Inert else Opens(Lower(name))
  {
    assert m[1..] == name + (attributes + ">");
    NameEnds(name, attributes + ">");
    VoidIs(Lower(name));
  }

  /** One that closes itself opens nothing. */
  lemma SelfClosingTag(name: string, attributes: string)
    requires PlainName(name) && Attributes(attributes)
    ensures MarkOf("<" + name + attributes + "/>") == Inert
  {
    var m := "<" + name + attributes + "/>";
    assert m[1] == name[0] && m[|m| - 2] == '/';
  }

  lemma ClosingTag(name: string)
    requires PlainName(name)
    ensures MarkOf("</" + name + ">") == Closes(Lower(name))
  {
    var m := "</" + name + ">";
    assert m[2..] == name + ">";
    NameEnds(name, ">");
  }

  lemma {:induction false} LastIs(stack: seq<string>, name: string, i: nat)
    requires i < |stack| && stack[i] == name && forall j :: i < j < |stack| ==> stack[j] != name
    ensures name in stack && LastIndex(stack, name) == i
  {
    if i < |stack| - 1 { LastIs(stack[..|stack| - 1], name, i); }
  }

  /** A closing tag closes the innermost element of its name with everything inside it. */
  lemma ClosesInnermost(outer: seq<string>, name: string, inner: seq<string>)
    requires name !in inner
    ensures After(outer + [name] + inner, Closes(name)) == outer
  {
    var stack := outer + [name] + inner;
    forall j | |outer| < j < |stack| ensures stack[j] != name { assert stack[j] == inner[j - |outer| - 1]; }
    LastIs(stack, name, |outer|);
    assert stack[..|outer|] == outer;
  }

  /** One that closes nothing changes nothing. */
  lemma ClosesNothing(stack: seq<string>, name: string)
    requires name !in stack
    ensures After(stack, Closes(name)) == stack
  {
  }

  // ---- Markup in pieces -----------------------------------------------------

  /** Words, or one whole tag or comment. */
  predicate Piece(s: string) { s != "" && ('<' !in s || MatchLen(s) == |s|) }

  predicate Pieces(ps: seq<string>) { forall i :: 0 <= i < |ps| ==> Piece(ps[i]) }

  function Text(ps: seq<string>): string
    decreases |ps|
  {
    if ps == [] then "" else Text(ps[..|ps| - 1]) + ps[|ps| - 1]
  }

  /** The elements open after the pieces. */
  function Open(ps: seq<string>): seq<string>
    decreases |ps|
  {
    if ps == [] then [] else
      var last := ps[|ps| - 1];
      if '<' !in last then Open(ps[..|ps| - 1]) else After(Open(ps[..|ps| - 1]), MarkOf(last))
  }

  lemma WordsStep(x: string, words: string, rest: string, k: nat)
    requires '<' !in words && k < |words|
    ensures Steps(x + words + rest)[|x| + k].len == 0
  {
    var t := x + words + rest;
    assert t[|x| + k] == words[k];
    StepsFrom(t, |x| + k, t[|x| + k..]);
  }

  lemma PieceStep(x: string, tag: string, rest: string)
    requires tag != "" && MatchLen(tag) == |tag|
    ensures Steps(x + tag + rest)[|x|] == Step(|tag|, MarkOf(tag))
  {
    var t := x + tag + rest;
    assert t[|x|..] == tag + rest && (tag + rest)[..|tag|] == tag[..|tag|] == tag;
    MatchIsLocal(tag, tag + rest);
    StepsFrom(t, |x|, tag + rest);
  }

  lemma PieceReach(x: string, last: string, rest: string, stack: seq<string>)
    requires Piece(last) && Reach(Steps(x + last + rest), [], 0, |x|) == Some(stack)
    ensures Reach(Steps(x + last + rest), [], 0, |x| + |last|) ==
            Some(if '<' !in last then stack else After(stack, MarkOf(last)))
  {
    var steps := Steps(x + last + rest);
    if '<' !in last {
      forall j | |x| <= j < |x| + |last| ensures steps[j].len == 0 { WordsStep(x, last, rest, j - |x|); }
      ReachFrom(steps, [], 0, |x|, |x| + |last|);
      ReachPlain(steps, stack, |x|, |x| + |last|);
    } else {
      PieceStep(x, last, rest);
      TagStep(steps, |x|, |last|, MarkOf(last), stack);
    }
  }

  /** The scan arrives at the end of the pieces with those elements open, whatever follows. */
  lemma {:induction false} PiecesReach(ps: seq<string>, rest: string)
    requires Pieces(ps)
    ensures Reach(Steps(Text(ps) + rest), [], 0, |Text(ps)|) == Some(Open(ps))
    decreases |ps|
  {
    if ps != [] {
      var front, last := ps[..|ps| - 1], ps[|ps| - 1];
      PiecesReach(front, last + rest);
      assert Text(front) + (last + rest) == Text(front) + last + rest == Text(ps) + rest;
      PieceReach(Text(front), last, rest, Open(front));
    }
  }

  lemma WordsReach(x: string, words: string, rest: string, k: nat, stack: seq<string>)
    requires '<' !in words && k < |words| && Reach(Steps(x + words + rest), [], 0, |x|) == Some(stack)
    ensures Prose(x + words + rest, |x| + k) <==> Allowed(stack)
  {
    forall j | |x| <= j <= |x| + k ensures Steps(x + words + rest)[j].len == 0 { WordsStep(x, words, rest, j - |x|); }
    PlainUpTo(Steps(x + words + rest), |x|, stack, |x| + k);
  }

  lemma PlainUpTo(xs: seq<Step>, i: nat, stack: seq<string>, k: nat)
    requires i <= k < |xs| && Reach(xs, [], 0, i) == Some(stack) && forall j :: i <= j <= k ==> xs[j].len == 0
    ensures ProseAt(xs, k) <==> Allowed(stack)
  {
    ReachFrom(xs, [], 0, i, k);
    ReachPlain(xs, stack, i, k);
  }

  /** Words are prose exactly when the elements opened and not closed before them make body
      copy, whatever markup comes after. */
  lemma WordsAreProse(ps: seq<string>, x: string, words: string, rest: string, k: nat)
    requires Pieces(ps) && x == Text(ps) && '<' !in words && k < |words|
    ensures Prose(x + words + rest, |x| + k) <==> BodyCopy(Open(ps))
  {
    PiecesReach(ps, words + rest);
    assert x + (words + rest) == x + words + rest;
    WordsReach(x, words, rest, k, Open(ps));
    AllowedIsBodyCopy(Open(ps));
  }

  // ---- Common markup --------------------------------------------------------

  function OpenTagOf(name: string): string { "<" + name + ">" }

  function CloseTagOf(name: string): string { "</" + name + ">" }

  lemma TagsArePieces(name: string)
    requires PlainName(name)
    ensures Piece(OpenTagOf(name)) && Piece(CloseTagOf(name)) && '<' in OpenTagOf(name) && '<' in CloseTagOf(name)
  {
    var open, close := OpenTagOf(name), CloseTagOf(name);
    assert open[0] == '<' && open[1] == name[0] && close[0] == '<' && close[1] == '/' && close[2] == name[0];
    forall i | 0 <= i < |name| ensures open[i + 1] == name[i] && close[i + 2] == name[i] && name[i] != '>' {}
    assert open[|open| - 1] == '>' && close[|close| - 1] == '>';
    LastIsGt(open);
    LastIsGt(close);
  }

  lemma LastIsGt(m: string)
    requires TagStart(m) && m[|m| - 1] == '>' && forall i :: 0 <= i < |m| - 1 ==> m[i] != '>'
    ensures MatchLen(m) == |m|
  {
    assert NextGt(m, 1).Some?;
  }

  lemma OnePiece(x: string)
    ensures Text([x]) == x && Open([x]) == if '<' !in x then [] else After([], MarkOf(x))
  {
    assert [x][..0] == [];
  }

  lemma OneMorePiece(ps: seq<string>, x: string)
    ensures Text(ps + [x]) == Text(ps) + x
    ensures Open(ps + [x]) == if '<' !in x then Open(ps) else After(Open(ps), MarkOf(x))
  {
    assert (ps + [x])[..|ps|] == ps;
  }

  lemma OneOpen(name: string)
    ensures BodyCopy([name]) <==> TextElement(name)
  {
    assert [name][0] == name;
  }

  lemma ParagraphAnd(name: string)
    ensures BodyCopy(["p", name]) <==> TextElement(name) || Surrounding(name)
    ensures BodyCopy(["p"])
  {
    var two := ["p", name];
    assert TextElement(two[0]) && two[1] == name;
    assert TextElement(["p"][0]);
  }

  /** The tag of an element, and what it opens. */
  lemma OpenPiece(name: string, tag: string)
    requires PlainName(name) && tag == OpenTagOf(name)
    ensures Piece(tag) && '<' in tag && |tag| == |name| + 2
    ensures MarkOf(tag) == if VoidElement(Lower(name)) then Inert else Opens(Lower(name))
  {
    TagsArePieces(name);
    OpeningTag(name, "");
    assert tag == "<" + name + "" + ">";
  }

  /** Inside one element the words are prose if it is a text element or has no content. */
  lemma DirectText(name: string, tag: string, words: string, rest: string, k: nat)
    requires PlainName(name) && tag == OpenTagOf(name) && '<' !in words && k < |words|
    ensures Prose(tag + words + rest, |tag| + k) <==> TextElement(Lower(name)) || VoidElement(Lower(name))
  {
    OpenPiece(name, tag);
    OnePiece(tag);
    WordsAreProse([tag], tag, words, rest, k);
    OneOpen(Lower(name));
  }

  lemma ParagraphPieces(name: string, tag: string) returns (ps: seq<string>)
    requires PlainName(name) && tag == OpenTagOf(name)
    ensures Pieces(ps) && Text(ps) == "<p>" + tag
    ensures BodyCopy(Open(ps)) <==> TextElement(Lower(name)) || Surrounding(Lower(name)) || VoidElement(Lower(name))
  {
    Paragraph();
    OpenPiece(name, tag);
    TwoPieces("<p>", tag);
    ParagraphAnd(Lower(name));
    OpenedTwice("p", MarkOf(tag), Lower(name));
    ps := ["<p>"] + [tag];
  }

  /** Inside a paragraph an element's words are prose if it may be open around body copy. */
  lemma InsideParagraph(name: string, tag: string, words: string, rest: string, k: nat)
    requires PlainName(name) && tag == OpenTagOf(name) && '<' !in words && k < |words|
    ensures Prose("<p>" + tag + words + rest, 3 + |tag| + k) <==>
      TextElement(Lower(name)) || Surrounding(Lower(name)) || VoidElement(Lower(name))
  {
    var ps := ParagraphPieces(name, tag);
    WordsAreProse(ps, "<p>" + tag, words, rest, k);
  }

  lemma Paragraph()
    ensures Piece("<p>") && '<' in "<p>" && MarkOf("<p>") == Opens("p")
  {
    assert PlainName("p");
    assert OpenTagOf("p") == "<p>";
    assert Lower("p") == "p";
    OpenPiece("p", "<p>");
  }

  lemma TwoPieces(x: string, y: string)
    requires Piece(x) && Piece(y) && '<' in x && '<' in y
    ensures Pieces([x] + [y]) && Text([x] + [y]) == x + y && Open([x] + [y]) == After(After([], MarkOf(x)), MarkOf(y))
  {
    OnePiece(x);
    OneMorePiece([x], y);
  }

  lemma OpenedTwice(outer: string, mark: Mark, inner: string)
    requires mark.Inert? || mark == Opens(inner)
    ensures After(After([], Opens(outer)), mark) == if mark.Inert? then [outer] else [outer, inner]
  {
  }

  lemma ElementPieces(name: string, open: string, inside: string, close: string) returns (ps: seq<string>)
    requires PlainName(name) && open == OpenTagOf(name) && close == CloseTagOf(name) && '<' !in inside && inside != ""
    ensures Pieces(ps) && Text(ps) == open + inside + close && Open(ps) == []
  {
    OpenPiece(name, open);
    TagsArePieces(name);
    ClosingTag(name);
    ThreePieces(open, inside, close);
    OpenedAndClosed(After([], MarkOf(open)), Lower(name));
    ps := [open] + [inside] + [close];
  }

  lemma ThreePieces(x: string, words: string, y: string)
    requires Piece(x) && Piece(words) && Piece(y) && '<' in x && '<' !in words && '<' in y
    ensures var ps := [x] + [words] + [y];
            Pieces(ps) && Text(ps) == x + words + y && Open(ps) == After(After([], MarkOf(x)), MarkOf(y))
  {
    OnePiece(x);
    OneMorePiece([x], words);
    OneMorePiece([x] + [words], y);
  }

  /** After an element is closed, the words are prose as if it had not been there. */
  lemma AfterElement(name: string, open: string, inside: string, close: string, words: string, rest: string, k: nat)
    requires PlainName(name) && open == OpenTagOf(name) && close == CloseTagOf(name)
    requires '<' !in inside && inside != "" && '<' !in words && k < |words|
    ensures Prose(open + inside + close + words + rest, |open| + |inside| + |close| + k)
  {
    var ps := ElementPieces(name, open, inside, close);
    WordsAreProse(ps, open + inside + close, words, rest, k);
  }

  lemma OpenedAndClosed(stack: seq<string>, name: string)
    requires stack == if VoidElement(name) then [] else [name]
    ensures After(stack, Closes(name)) == []
  {
    if VoidElement(name) {
      ClosesNothing([], name);
    } else {
      ClosesInnermost([], name, []);
      assert [] + [name] + [] == [name];
    }
  }

  /** No text ends a comment before its own arrow does. */
  predicate CommentText(c: string) { forall j: nat :: j < |c| ==> !ArrowAt(c + "-->", j) }

  lemma CommentIsPiece(c: string, m: string)
    requires CommentText(c) && m == "<!--" + c + "-->"
    ensures MatchLen(m) == |m| && MarkOf(m) == Inert && '<' in m
  {
    var n := |c| + 4;
    assert m[0] == '<' && ArrowAt(m, n);
    forall j: nat | 4 <= j < n ensures !ArrowAt(m, j) {
      var t := c + "-->";
      assert !ArrowAt(t, j - 4);
      assert m[j] == t[j - 4] && m[j + 1] == t[j - 3] && m[j + 2] == t[j - 2];
    }
  }

  /** A comment is no prose, whatever it says, and the words after it are. */
  lemma AfterComment(c: string, m: string, words: string, rest: string, k: nat)
    requires CommentText(c) && m == "<!--" + c + "-->" && '<' !in words && k < |words|
    ensures Prose(m + words + rest, |m| + k)
    ensures forall j :: 0 <= j < |m| ==> !Prose(m + words + rest, j)
  {
    CommentIsPiece(c, m);
    OnePiece(m);
    WordsAreProse([m], m, words, rest, k);
    InsideMatch(m, words + rest);
    assert m + (words + rest) == m + words + rest;
  }

  lemma InsideMatch(m: string, rest: string)
    requires m != "" && MatchLen(m) == |m|
    ensures forall j :: 0 <= j < |m| ==> !Prose(m + rest, j)
  {
    assert "" + m + rest == m + rest;
    PieceStep("", m, rest);
    TagStep(Steps(m + rest), 0, |m|, MarkOf(m), []);
  }
}
