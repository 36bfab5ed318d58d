/**
 * The last two cleaner passes: `strip_paragraph_newlines` deletes the line
 * separator from every text node inside a paragraph, and
 * `ensure_nonempty_paragraphs` gives a paragraph with no contents, or only
 * blank text, a single no-break space.
 *
 * The line separator (`os.linesep`) is taken to be "\n".
 */
module ParagraphText {
  import opened Text
  import opened HtmlTree
  import MergeTags

  /** `os.linesep` on the server. */
  const NewLine: char := '\n'

  /** The strip pass on a node; `inParagraph` says whether a paragraph lies at
      or above its parent, so that its text nodes are rewritten. */
  function StripNewlines(n: Node, inParagraph: bool): (r: Node)
    ensures MergeTags.SameHead(r, n)
    ensures n.Element? ==> |r.children| == |n.children|
    decreases n
  {
    match n
    case Text(t) => if inParagraph then Text(RemoveChar(t, NewLine)) else n
    case Element(name, classes, attrs, children) =>
      Element(name, classes, attrs,
              seq(|children|, i requires 0 <= i < |children| => StripNewlines(children[i], inParagraph || name == "p")))
  }

  /** Inside a paragraph the pass removes every newline and keeps every other
      character in order. */
  lemma {:induction false} StripRemovesExactlyNewlines(n: Node)
    ensures GetText(StripNewlines(n, true)) == RemoveChar(GetText(n), NewLine)
    decreases n
  {
    match n
    case Text(_) =>
    case Element(name, classes, attrs, children) =>
      StripChildren(children);
  }

  lemma {:induction false} StripChildren(children: seq<Node>)
    ensures ChildrenText(seq(|children|, i requires 0 <= i < |children| => StripNewlines(children[i], true)))
            == RemoveChar(ChildrenText(children), NewLine)
    decreases children
  {
    var out := seq(|children|, i requires 0 <= i < |children| => StripNewlines(children[i], true));
    if children != [] {
      StripRemovesExactlyNewlines(children[0]);
      StripChildren(children[1..]);
      assert out[1..] == seq(|children[1..]|, i requires 0 <= i < |children[1..]| => StripNewlines(children[1..][i], true));
      RemoveCharAppend(GetText(children[0]), ChildrenText(children[1..]), NewLine);
    }
  }

  /** Outside every paragraph the text is untouched. */
  lemma {:induction false} StripOutsideParagraphs(n: Node)
    requires Everywhere(n, m => !IsParagraph(m))
    ensures StripNewlines(n, false) == n
    decreases n
  {
    match n
    case Text(_) =>
    case Element(name, classes, attrs, children) =>
      forall i | 0 <= i < |children| ensures StripNewlines(children[i], false) == children[i] {
        StripOutsideParagraphs(children[i]);
      }
      assert StripNewlines(n, false).children == children;
  }

  /** A text node without a newline. */
  predicate NoNewlineText(n: Node) {
    n.Text? ==> NewLine !in n.text
  }

  /** No text node below a paragraph holds a newline. */
  predicate NoNewlineBelow(n: Node) {
    IsParagraph(n) ==> forall i :: 0 <= i < |n.children| ==> Everywhere(n.children[i], NoNewlineText)
  }

  lemma {:induction false} StrippedHasNoNewline(n: Node)
    ensures Everywhere(StripNewlines(n, true), NoNewlineText)
    decreases n
  {
    match n
    case Text(_) =>
    case Element(name, classes, attrs, children) =>
      forall i | 0 <= i < |children| ensures Everywhere(StripNewlines(children[i], true), NoNewlineText) {
        StrippedHasNoNewline(children[i]);
      }
  }

  /** After the pass no paragraph anywhere holds a newline. */
  lemma {:induction false} StripClearsParagraphs(n: Node, inParagraph: bool)
    ensures Everywhere(StripNewlines(n, inParagraph), NoNewlineBelow)
    decreases n
  {
    match n
    case Text(_) =>
    case Element(name, classes, attrs, children) =>
      var r := StripNewlines(n, inParagraph);
      forall i | 0 <= i < |children| ensures Everywhere(r.children[i], NoNewlineBelow) {
        StripClearsParagraphs(children[i], inParagraph || name == "p");
      }
      if name == "p" {
        forall i | 0 <= i < |children| ensures Everywhere(r.children[i], NoNewlineText) {
          StrippedHasNoNewline(children[i]);
        }
      }
  }

  /** Stripping twice is stripping once. */
  lemma {:induction false} StripIdempotent(n: Node, inParagraph: bool)
    ensures StripNewlines(StripNewlines(n, inParagraph), inParagraph) == StripNewlines(n, inParagraph)
    decreases n
  {
    match n
    case Text(t) =>
      if inParagraph {
        assert NewLine !in RemoveChar(t, NewLine);
      }
    case Element(name, classes, attrs, children) =>
      var once := StripNewlines(n, inParagraph);
      forall i | 0 <= i < |children|
        ensures StripNewlines(once.children[i], inParagraph || name == "p") == once.children[i]
      {
        StripIdempotent(children[i], inParagraph || name == "p");
      }
      assert StripNewlines(once, inParagraph).children == once.children;
  }

  /** `content.strip() == ""` for every content, all of them strings. */
  predicate AllBlankText(children: seq<Node>) {
    forall i :: 0 <= i < |children| ==> children[i].Text? && AllSpace(children[i].text)
  }

  /** The paragraph test of `ensure_nonempty_paragraphs`. */
  predicate IsBlankParagraph(n: Node) {
    IsParagraph(n) && (n.children == [] || AllBlankText(n.children))
  }

  /** The contents a blank paragraph is given. */
  const Filler: seq<Node> := [Text([NoBreakSpace])]

  /** The pass on a node. A blank paragraph holds only text, so replacing its
      contents detaches no paragraph the pass would still visit. */
  function EnsureNonempty(n: Node): (r: Node)
    ensures MergeTags.SameHead(r, n)
    ensures IsBlankParagraph(n) ==> r.children == Filler
    decreases n
  {
    match n
    case Text(_) => n
    case Element(name, classes, attrs, children) =>
      if IsBlankParagraph(n) then Element(name, classes, attrs, Filler)
      else Element(name, classes, attrs, seq(|children|, i requires 0 <= i < |children| => EnsureNonempty(children[i])))
  }

  /** A paragraph is filled: it has contents, and when they are all blank text
      they are the single no-break space. */
  predicate Filled(n: Node) {
    IsParagraph(n) ==> n.children != [] && (AllBlankText(n.children) ==> n.children == Filler)
  }

  lemma {:induction false} EnsureNonemptyFills(n: Node)
    ensures Everywhere(EnsureNonempty(n), Filled)
    decreases n
  {
    match n
    case Text(_) =>
    case Element(name, classes, attrs, children) =>
      if !IsBlankParagraph(n) {
        var r := EnsureNonempty(n);
        forall i | 0 <= i < |children| ensures Everywhere(r.children[i], Filled) {
          EnsureNonemptyFills(children[i]);
        }
        if name == "p" {
          assert children != [] && !AllBlankText(children);
          var i :| 0 <= i < |children| && !(children[i].Text? && AllSpace(children[i].text));
          assert r.children[i] == EnsureNonempty(children[i]);
        }
      }
  }

  /** A paragraph that is already filled keeps its contents; the pass is
      idempotent. */
  lemma {:induction false} EnsureNonemptyIdempotent(n: Node)
    ensures EnsureNonempty(EnsureNonempty(n)) == EnsureNonempty(n)
    decreases n
  {
    match n
    case Text(_) =>
    case Element(name, classes, attrs, children) =>
      var once := EnsureNonempty(n);
      if IsBlankParagraph(n) {
        assert AllSpace([NoBreakSpace]);
        assert IsBlankParagraph(once);
      } else {
        forall i | 0 <= i < |children| ensures EnsureNonempty(once.children[i]) == once.children[i] {
          EnsureNonemptyIdempotent(children[i]);
        }
        if name == "p" {
          var i :| 0 <= i < |children| && !(children[i].Text? && AllSpace(children[i].text));
          assert once.children[i] == EnsureNonempty(children[i]);
          assert !IsBlankParagraph(once);
        }
        assert EnsureNonempty(once).children == once.children;
      }
  }

  /** A tree without blank paragraphs is left as it is. */
  lemma {:induction false} NoBlankParagraphUntouched(n: Node)
    requires Everywhere(n, m => !IsBlankParagraph(m))
    ensures EnsureNonempty(n) == n
    decreases n
  {
    match n
    case Text(_) =>
    case Element(name, classes, attrs, children) =>
      forall i | 0 <= i < |children| ensures EnsureNonempty(children[i]) == children[i] {
        NoBlankParagraphUntouched(children[i]);
      }
      assert EnsureNonempty(n).children == children;
  }
}
