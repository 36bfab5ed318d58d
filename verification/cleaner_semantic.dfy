/**
 * `map_classes_to_semantic_tags` and `replace_spans_with_semantic_tags`: a
 * span whose classes carry bold, italic, underline or strike-through styling
 * becomes the matching nest of `<strong>`, `<em>`, `<u>` and `<s>` elements.
 */
module SemanticTags {
  import opened Wrappers
  import opened Text
  import opened HtmlTree

  /** The three style properties read for one class (`None` when unset). */
  datatype Style = Style(fontWeight: Option<string>, fontStyle: Option<string>, textDecoration: Option<string>)

  type StyleMap = map<string, Style>

  /** The fixed order of the semantic tags in the result. */
  const TagOrder: seq<string> := ["strong", "em", "u", "s"]

  predicate WantsStrong(cls: string, styles: StyleMap) {
    cls in styles && (styles[cls].fontWeight == Some("700") || styles[cls].fontWeight == Some("bold"))
  }

  predicate WantsEm(cls: string, styles: StyleMap) {
    cls in styles && styles[cls].fontStyle == Some("italic")
  }

  predicate WantsU(cls: string, styles: StyleMap) {
    cls in styles && styles[cls].textDecoration.Some? && Contains(styles[cls].textDecoration.value, "underline")
  }

  predicate WantsS(cls: string, styles: StyleMap) {
    cls in styles && styles[cls].textDecoration.Some? && Contains(styles[cls].textDecoration.value, "line-through")
  }

  /** Which tags the set `tag_set` holds once every class has been read. */
  datatype TagSet = TagSet(strong: bool, em: bool, u: bool, s: bool)

  /** The loop over the classes, adding to `tag_set`. */
  function CollectTags(classes: seq<string>, styles: StyleMap): (t: TagSet)
    ensures t.strong <==> exists i :: 0 <= i < |classes| && WantsStrong(classes[i], styles)
    ensures t.em <==> exists i :: 0 <= i < |classes| && WantsEm(classes[i], styles)
    ensures t.u <==> exists i :: 0 <= i < |classes| && WantsU(classes[i], styles)
    ensures t.s <==> exists i :: 0 <= i < |classes| && WantsS(classes[i], styles)
  {
    if classes == [] then TagSet(false, false, false, false)
    else
      var rest := CollectTags(classes[1..], styles);
      var c := classes[0];
      assert forall i :: 1 <= i < |classes| ==> classes[i] == classes[1..][i - 1];
      TagSet(rest.strong || WantsStrong(c, styles), rest.em || WantsEm(c, styles),
             rest.u || WantsU(c, styles), rest.s || WantsS(c, styles))
  }

  /** `[tag for tag in ("strong", "em", "u", "s") if tag in tag_set]`. */
  function TagsInOrder(t: TagSet): (r: seq<string>)
    ensures ("strong" in r <==> t.strong) && ("em" in r <==> t.em) && ("u" in r <==> t.u) && ("s" in r <==> t.s)
    ensures IsOrderedSubsequence(r)
  {
    TagsFrom(t, 0)
  }

  /** Whether the set holds `tag`. */
  predicate Present(t: TagSet, tag: string) {
    if tag == "strong" then t.strong
    else if tag == "em" then t.em
    else if tag == "u" then t.u
    else tag == "s" && t.s
  }

  /** The comprehension from the `k`-th tag of `TagOrder` on. */
  function TagsFrom(t: TagSet, k: nat): (r: seq<string>)
    requires k <= |TagOrder|
    ensures IsOrderedSubsequence(r)
    ensures forall i :: 0 <= i < |r| ==> Rank(r[i]) >= k
    ensures forall tag :: tag in r <==> Present(t, tag) && Rank(tag) >= k
    decreases |TagOrder| - k
  {
    if k == |TagOrder| then []
    else
      var rest := TagsFrom(t, k + 1);
      var tag := TagOrder[k];
      assert Rank(tag) == k;
      if Present(t, tag) then
        PrependOrdered(tag, rest);
        [tag] + rest
      else
        rest
  }

  /** A tag ranked below everything in an ordered subsequence can go in front. */
  lemma PrependOrdered(tag: string, rest: seq<string>)
    requires tag in TagOrder && IsOrderedSubsequence(rest)
    requires forall i :: 0 <= i < |rest| ==> Rank(tag) < Rank(rest[i])
    ensures IsOrderedSubsequence([tag] + rest)
  {
    var r := [tag] + rest;
    assert forall i :: 1 <= i < |r| ==> r[i] == rest[i - 1];
  }

  /** Position of a semantic tag in `TagOrder`. */
  function Rank(tag: string): int {
    if tag == "strong" then 0 else if tag == "em" then 1 else if tag == "u" then 2 else if tag == "s" then 3 else 4
  }

  /** Every entry is one of the four tags, and they come in `TagOrder` order
      without repetition. */
  predicate IsOrderedSubsequence(r: seq<string>) {
    && (forall i :: 0 <= i < |r| ==> r[i] in TagOrder)
    && (forall i, j :: 0 <= i < j < |r| ==> Rank(r[i]) < Rank(r[j]))
  }

  /** `map_classes_to_semantic_tags(class_names, class_style_map)`. */
  function MapClassesToSemanticTags(classes: seq<string>, styles: StyleMap): (r: seq<string>)
    ensures IsOrderedSubsequence(r)
    ensures "strong" in r <==> exists i :: 0 <= i < |classes| && WantsStrong(classes[i], styles)
    ensures "em" in r <==> exists i :: 0 <= i < |classes| && WantsEm(classes[i], styles)
    ensures "u" in r <==> exists i :: 0 <= i < |classes| && WantsU(classes[i], styles)
    ensures "s" in r <==> exists i :: 0 <= i < |classes| && WantsS(classes[i], styles)
  {
    TagsInOrder(CollectTags(classes, styles))
  }

  /** An ordered subsequence has no repeated tag and at most four. */
  lemma OrderedHasNoDuplicates(r: seq<string>)
    requires IsOrderedSubsequence(r)
    ensures forall i, j :: 0 <= i < j < |r| ==> r[i] != r[j]
    ensures |r| <= 4
  {
    if |r| > 4 {
      RankAtLeastIndex(r, 4);
    }
  }

  lemma {:induction false} RankAtLeastIndex(r: seq<string>, k: nat)
    requires IsOrderedSubsequence(r) && k < |r|
    ensures Rank(r[k]) >= k
  {
    if k > 0 {
      RankAtLeastIndex(r, k - 1);
    }
  }

  /** The nest `<tags[0]><tags[1]>...children...</tags[1]></tags[0]>`: the
      first tag outermost, the span's children innermost. */
  function Wrap(tags: seq<string>, children: seq<Node>): (r: seq<Node>)
    ensures tags != [] ==> |r| == 1 && r[0].Element? && r[0].name == tags[0] && r[0].classes == []
    ensures tags == [] ==> r == children
  {
    if tags == [] then children
    else [Element(tags[0], [], map[], Wrap(tags[1..], children))]
  }

  /** Reading the nest back: the names from the outside in, and what the
      innermost element holds. */
  function Peel(nodes: seq<Node>, depth: nat): (seq<string>, seq<Node>)
  {
    if depth == 0 || |nodes| != 1 || !nodes[0].Element? then ([], nodes)
    else
      var (names, inner) := Peel(nodes[0].children, depth - 1);
      ([nodes[0].name] + names, inner)
  }

  /** Wrapping loses nothing: peeling as many levels as there are tags gives the
      tags and the span's children back. */
  lemma {:induction false} WrapPeel(tags: seq<string>, children: seq<Node>)
    ensures Peel(Wrap(tags, children), |tags|) == (tags, children)
  {
    if tags != [] {
      WrapPeel(tags[1..], children);
      assert [tags[0]] + tags[1..] == tags;
    }
  }

  /** The nest shows the span's text. */
  lemma {:induction false} WrapText(tags: seq<string>, children: seq<Node>)
    ensures ChildrenText(Wrap(tags, children)) == ChildrenText(children)
  {
    if tags != [] {
      var inner := Wrap(tags[1..], children);
      WrapText(tags[1..], children);
      assert Wrap(tags, children)[1..] == [];
    }
  }

  /** The tags a span turns into; empty when it stays a span. */
  function SpanTags(n: Node, styles: StyleMap): seq<string>
    requires n.Element?
  {
    if n.classes == [] then [] else MapClassesToSemanticTags(n.classes, styles)
  }

  /** `replace_spans_with_semantic_tags` on one node, as a sequence because a
      span is replaced by its nest. Spans inside a replaced span are copied as
      they are (the pass only rewrites spans still in the document). */
  function ReplaceSpans(n: Node, styles: StyleMap): (r: seq<Node>)
    ensures |r| == 1
    ensures n.Text? ==> r == [n]
    ensures IsSpan(n) && SpanTags(n, styles) != [] ==> r == Wrap(SpanTags(n, styles), n.children)
    decreases n
  {
    match n
    case Text(_) => [n]
    case Element(name, classes, attrs, children) =>
      if name == "span" && SpanTags(n, styles) != [] then Wrap(SpanTags(n, styles), children)
      else [Element(name, classes, attrs, ReplaceSpansIn(children, styles))]
  }

  function ReplaceSpansIn(nodes: seq<Node>, styles: StyleMap): (r: seq<Node>)
    ensures |r| == |nodes|
    decreases nodes
  {
    if nodes == [] then [] else ReplaceSpans(nodes[0], styles) + ReplaceSpansIn(nodes[1..], styles)
  }

  /** A span without classes, or whose classes map to no tag, stays as it was
      apart from what happens below it. */
  lemma UnstyledSpanKept(n: Node, styles: StyleMap)
    requires IsSpan(n) && SpanTags(n, styles) == []
    ensures ReplaceSpans(n, styles) == [Element("span", n.classes, n.attrs, ReplaceSpansIn(n.children, styles))]
  {
  }

  /** The pass changes markup only: the text is the same. */
  lemma {:induction false} ReplaceSpansKeepsText(n: Node, styles: StyleMap)
    ensures ChildrenText(ReplaceSpans(n, styles)) == GetText(n)
    decreases n
  {
    match n
    case Text(_) =>
      assert ReplaceSpans(n, styles)[1..] == [];
    case Element(name, classes, attrs, children) =>
      if name == "span" && SpanTags(n, styles) != [] {
        WrapText(SpanTags(n, styles), children);
      } else {
        ReplaceSpansInKeepsText(children, styles);
        assert ReplaceSpans(n, styles)[1..] == [];
      }
  }

  lemma {:induction false} ReplaceSpansInKeepsText(nodes: seq<Node>, styles: StyleMap)
    ensures ChildrenText(ReplaceSpansIn(nodes, styles)) == ChildrenText(nodes)
    decreases nodes
  {
    if nodes != [] {
      ReplaceSpansKeepsText(nodes[0], styles);
      ReplaceSpansInKeepsText(nodes[1..], styles);
      ChildrenTextAppend(ReplaceSpans(nodes[0], styles), ReplaceSpansIn(nodes[1..], styles));
    }
  }
}
