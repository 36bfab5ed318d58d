/**
 * `consolidate_spans_in_paragraphs`: inside each paragraph, the spans between
 * two other elements give up their markup; their texts, joined, become one
 * text node placed just before the next element (or at the end).
 */
module ConsolidateSpans {
  import opened Wrappers
  import opened HtmlTree
  import MergeTags

  /** A child that ends a group of spans: an element other than a span. */
  predicate IsBreak(n: Node) {
    n.Element? && n.name != "span"
  }

  /** `span_texts` after one more span: `None` stands for the empty list, and
      `Some(s)` for a non-empty list whose join is `s`. */
  function AddSpanText(pending: Option<string>, text: string): (r: Option<string>)
    ensures r.Some?
  {
    match pending
    case None => Some(text)
    case Some(s) => Some(s + text)
  }

  /** `if span_texts: new_contents.append("".join(span_texts))`; the joined
      text may be empty when every span was. */
  function Flush(pending: Option<string>): (r: seq<Node>)
    ensures |r| <= 1 && (r == [] <==> pending.None?)
  {
    match pending
    case None => []
    case Some(s) => [Text(s)]
  }

  /** The pass on one node. A paragraph's children are regrouped, after the
      non-span elements among them have been processed; spans are not looked
      into (their text is taken as it is). Other elements pass through. */
  function ConsolidateNode(n: Node): (r: Node)
    ensures MergeTags.SameHead(r, n)
    decreases n, 1
  {
    match n
    case Text(_) => n
    case Element(name, classes, attrs, children) =>
      if name == "p" then Element(name, classes, attrs, ConsolidateChildren(children, None))
      else Element(name, classes, attrs, ConsolidateAll(children))
  }

  /** Every node of a sequence of siblings, outside a paragraph. */
  function ConsolidateAll(nodes: seq<Node>): (r: seq<Node>)
    ensures |r| == |nodes|
    ensures forall i :: 0 <= i < |r| ==> r[i] == ConsolidateNode(nodes[i])
    decreases nodes, 2
  {
    if nodes == [] then []
    else
      var r := [ConsolidateNode(nodes[0])] + ConsolidateAll(nodes[1..]);
      assert forall i :: 1 <= i < |r| ==> nodes[i] == nodes[1..][i - 1];
      r
  }

  /** The loop over a paragraph's contents with `span_texts` as `pending`:
      text stays, a span adds its text, another element flushes the pending
      text and follows it, and what is still pending is flushed at the end. */
  function ConsolidateChildren(children: seq<Node>, pending: Option<string>): (r: seq<Node>)
    ensures forall i :: 0 <= i < |r| ==> !IsSpan(r[i])
    decreases children, 0
  {
    if children == [] then Flush(pending)
    else
      var c := children[0];
      if c.Text? then [c] + ConsolidateChildren(children[1..], pending)
      else if c.name == "span" then ConsolidateChildren(children[1..], AddSpanText(pending, GetText(c)))
      else
        var tail := ConsolidateChildren(children[1..], None);
        var r := Flush(pending) + [ConsolidateNode(c)] + tail;
        assert forall i :: |Flush(pending)| + 1 <= i < |r| ==> r[i] == tail[i - |Flush(pending)| - 1];
        r
  }

  // An independent description of the regrouping: cut the children into groups,
  // each group being the children up to the next non-span element.

  /** The first group and what follows it (starting with the element that ends
      the group, when there is one). */
  function SplitGroup(nodes: seq<Node>): (r: (seq<Node>, seq<Node>))
    ensures r.0 + r.1 == nodes
    ensures forall i :: 0 <= i < |r.0| ==> !IsBreak(r.0[i])
    ensures r.1 != [] ==> IsBreak(r.1[0])
  {
    if nodes == [] then ([], [])
    else if IsBreak(nodes[0]) then ([], nodes)
    else
      var (group, rest) := SplitGroup(nodes[1..]);
      assert [nodes[0]] + group + rest == nodes;
      ([nodes[0]] + group, rest)
  }

  /** The text nodes of a group, in order. */
  function TextsOf(group: seq<Node>): (r: seq<Node>)
    ensures forall i :: 0 <= i < |r| ==> r[i].Text?
  {
    if group == [] then []
    else (if group[0].Text? then [group[0]] else []) + TextsOf(group[1..])
  }

  /** The joined text of the spans of a group, after what was pending. */
  function SpanTexts(group: seq<Node>, pending: Option<string>): Option<string>
  {
    if group == [] then pending
    else SpanTexts(group[1..], if IsSpan(group[0]) then AddSpanText(pending, GetText(group[0])) else pending)
  }

  /** Each group becomes its text nodes, then the joined text of its spans when
      it has any, then the processed element that ends it. */
  function Regroup(nodes: seq<Node>): seq<Node>
    decreases |nodes|
  {
    var (group, rest) := SplitGroup(nodes);
    TextsOf(group) + Flush(SpanTexts(group, None))
    + (if rest == [] then [] else [ConsolidateNode(rest[0])] + Regroup(rest[1..]))
  }

  /** Inside a group the loop keeps the text nodes and accumulates the spans. */
  lemma {:induction false} GroupStep(nodes: seq<Node>, pending: Option<string>)
    ensures ConsolidateChildren(nodes, pending)
            == TextsOf(SplitGroup(nodes).0) + ConsolidateChildren(SplitGroup(nodes).1, SpanTexts(SplitGroup(nodes).0, pending))
    decreases |nodes|
  {
    if nodes != [] && !IsBreak(nodes[0]) {
      var c := nodes[0];
      var (group, rest) := SplitGroup(nodes[1..]);
      var next := if c.Text? then pending else AddSpanText(pending, GetText(c));
      var kept := if c.Text? then [c] else [];
      GroupStep(nodes[1..], next);
      assert SplitGroup(nodes) == ([c] + group, rest);
      assert ([c] + group)[0] == c && ([c] + group)[1..] == group;
      assert TextsOf([c] + group) == kept + TextsOf(group);
      assert SpanTexts([c] + group, pending) == SpanTexts(group, next);
      assert ConsolidateChildren(nodes, pending) == kept + ConsolidateChildren(nodes[1..], next);
    }
  }

  /** The loop over a paragraph's contents is the regrouping. */
  lemma {:induction false} ConsolidateIsRegroup(nodes: seq<Node>)
    ensures ConsolidateChildren(nodes, None) == Regroup(nodes)
    decreases |nodes|
  {
    var (group, rest) := SplitGroup(nodes);
    GroupStep(nodes, None);
    if rest != [] {
      ConsolidateIsRegroup(rest[1..]);
    }
  }

  /** A paragraph without span children keeps its children in place (each
      processed), so consolidating moves nothing there. */
  lemma {:induction false} NoSpanNothingMoves(nodes: seq<Node>)
    requires forall i :: 0 <= i < |nodes| ==> !IsSpan(nodes[i])
    ensures ConsolidateChildren(nodes, None) == ConsolidateAll(nodes)
    decreases |nodes|
  {
    if nodes != [] {
      NoSpanNothingMoves(nodes[1..]);
      if IsBreak(nodes[0]) {
        assert Flush(None) == [];
      }
    }
  }

  /** The joined span text is emitted only at the next element or at the end,
      so it lands after plain text that followed the spans: `<p><span>a</span>b</p>`
      becomes `<p>ba</p>`, the text node "b" followed by the text node "a". */
  lemma PendingTextMovesAfterText()
    ensures ConsolidateNode(Element("p", [], map[], [Element("span", [], map[], [Text("a")]), Text("b")]))
         == Element("p", [], map[], [Text("b"), Text("a")])
  {
    var span := Element("span", [], map[], [Text("a")]);
    assert GetText(span) == "a";
    var rest: seq<Node> := [Text("b")];
    assert ConsolidateChildren(rest, Some("a")) == [Text("b")] + ConsolidateChildren([], Some("a"));
  }

  /** No paragraph has a span among its children. */
  predicate NoSpanChild(n: Node) {
    IsParagraph(n) ==> forall i :: 0 <= i < |n.children| ==> !IsSpan(n.children[i])
  }

  /** After the pass no paragraph anywhere has a span child. */
  lemma {:induction false} ConsolidateRemovesSpans(n: Node)
    ensures Everywhere(ConsolidateNode(n), NoSpanChild)
    decreases n, 1
  {
    match n
    case Text(_) =>
    case Element(name, classes, attrs, children) =>
      if name == "p" {
        ConsolidateChildrenRemovesSpans(children, None);
      } else {
        ConsolidateAllRemovesSpans(children);
      }
  }

  lemma {:induction false} ConsolidateAllRemovesSpans(nodes: seq<Node>)
    ensures forall i :: 0 <= i < |nodes| ==> Everywhere(ConsolidateAll(nodes)[i], NoSpanChild)
    decreases nodes, 2
  {
    forall i | 0 <= i < |nodes| ensures Everywhere(ConsolidateAll(nodes)[i], NoSpanChild) {
      ConsolidateRemovesSpans(nodes[i]);
    }
  }

  lemma {:induction false} ConsolidateChildrenRemovesSpans(children: seq<Node>, pending: Option<string>)
    ensures forall i :: 0 <= i < |ConsolidateChildren(children, pending)| ==>
              Everywhere(ConsolidateChildren(children, pending)[i], NoSpanChild)
    decreases children, 0
  {
    if children != [] {
      var c := children[0];
      if c.Text? {
        ConsolidateChildrenRemovesSpans(children[1..], pending);
      } else if c.name == "span" {
        ConsolidateChildrenRemovesSpans(children[1..], AddSpanText(pending, GetText(c)));
      } else {
        ConsolidateChildrenRemovesSpans(children[1..], None);
        ConsolidateRemovesSpans(c);
      }
    }
  }
}
