/**
 * `apply_transformations`: the six cleaner passes in their fixed order over a
 * whole document, and what the cleaned document guarantees about every
 * paragraph in it.
 */
module CleanerPipeline {
  import opened Wrappers
  import opened HtmlTree
  import opened ParagraphAlignment
  import opened SemanticTags
  import opened MergeTags
  import opened ConsolidateSpans
  import opened ParagraphText

  /** Applies a node-to-node pass to every top-level node. */
  function MapNodes(doc: Document, f: Node -> Node): (r: Document)
    ensures |r| == |doc| && forall i :: 0 <= i < |doc| ==> r[i] == f(doc[i])
  {
    seq(|doc|, i requires 0 <= i < |doc| => f(doc[i]))
  }

  /** The passes, in order: alignment, spans to semantic tags, merging of
      neighbouring semantic tags (one pass per entry of `semanticTags`, the
      tool's `SEMANTIC_TAGS`), span consolidation, newline stripping and the
      filling of blank paragraphs. */
  function ApplyTransformations(doc: Document, alignMap: AlignMap, styles: StyleMap, semanticTags: seq<string>): (r: Document)
    ensures |r| == |doc|
  {
    var aligned := MapNodes(doc, n => ApplyAlignment(n, alignMap));
    var semantic := ReplaceSpansIn(aligned, styles);
    var merged := MapNodes(semantic, n => MergeSemanticTags(n, semanticTags));
    var consolidated := ConsolidateAll(merged);
    var stripped := MapNodes(consolidated, n => StripNewlines(n, false));
    MapNodes(stripped, EnsureNonempty)
  }

  /** What the cleaned document promises about a paragraph: no generated
      c-class, no span child, no newline in its text, and some content. */
  predicate CleanParagraph(n: Node) {
    NoCClassOnParagraph(n) && NoSpanChild(n) && NoNewlineBelow(n) && Filled(n)
  }

  /** Every paragraph of the cleaned document is clean. */
  lemma CleanedParagraphsAreClean(doc: Document, alignMap: AlignMap, styles: StyleMap, semanticTags: seq<string>)
    ensures EverywhereIn(ApplyTransformations(doc, alignMap, styles, semanticTags), CleanParagraph)
  {
    var aligned := MapNodes(doc, n => ApplyAlignment(n, alignMap));
    var semantic := ReplaceSpansIn(aligned, styles);
    var merged := MapNodes(semantic, n => MergeSemanticTags(n, semanticTags));
    var consolidated := ConsolidateAll(merged);
    var stripped := MapNodes(consolidated, n => StripNewlines(n, false));
    var r := MapNodes(stripped, EnsureNonempty);
    forall i | 0 <= i < |aligned| ensures Everywhere(aligned[i], NoCClassOnParagraph) {
      AlignmentClearsCClasses(doc[i], alignMap);
    }
    ReplaceSpansInKeepsClasses(aligned, styles);
    forall i | 0 <= i < |r| ensures Everywhere(r[i], CleanParagraph) {
      MergeSemanticTagsKeepsClasses(semantic[i], semanticTags);
      ConsolidateKeepsClasses(merged[i]);
      ConsolidateRemovesSpans(merged[i]);
      StripKeepsClasses(consolidated[i], false);
      StripKeepsSpanFree(consolidated[i], false);
      StripClearsParagraphs(consolidated[i], false);
      EnsureKeepsClasses(stripped[i]);
      EnsureKeepsSpanFree(stripped[i]);
      EnsureKeepsNewlineFree(stripped[i]);
      EnsureNonemptyFills(stripped[i]);
      EverywhereAll(r[i]);
    }
  }

  /** The four properties, each everywhere, make the conjunction everywhere. */
  lemma {:induction false} EverywhereAll(n: Node)
    requires Everywhere(n, NoCClassOnParagraph) && Everywhere(n, NoSpanChild)
    requires Everywhere(n, NoNewlineBelow) && Everywhere(n, Filled)
    ensures Everywhere(n, CleanParagraph)
    decreases n
  {
    if n.Element? {
      forall i | 0 <= i < |n.children| ensures Everywhere(n.children[i], CleanParagraph) {
        EverywhereAll(n.children[i]);
      }
    }
  }

  // No c-class reappears on a paragraph in the later passes.

  lemma {:induction false} WrapKeepsClasses(tags: seq<string>, children: seq<Node>)
    requires forall i :: 0 <= i < |tags| ==> tags[i] in TagOrder
    requires forall i :: 0 <= i < |children| ==> Everywhere(children[i], NoCClassOnParagraph)
    ensures forall i :: 0 <= i < |Wrap(tags, children)| ==> Everywhere(Wrap(tags, children)[i], NoCClassOnParagraph)
  {
    if tags != [] {
      WrapKeepsClasses(tags[1..], children);
    }
  }

  lemma {:induction false} ReplaceSpansKeepsClasses(n: Node, styles: StyleMap)
    requires Everywhere(n, NoCClassOnParagraph)
    ensures forall i :: 0 <= i < |ReplaceSpans(n, styles)| ==> Everywhere(ReplaceSpans(n, styles)[i], NoCClassOnParagraph)
    decreases n
  {
    match n
    case Text(_) =>
    case Element(name, classes, attrs, children) =>
      if name == "span" && SpanTags(n, styles) != [] {
        WrapKeepsClasses(SpanTags(n, styles), children);
      } else {
        ReplaceSpansInKeepsClasses(children, styles);
      }
  }

  lemma {:induction false} ReplaceSpansInKeepsClasses(nodes: seq<Node>, styles: StyleMap)
    requires forall i :: 0 <= i < |nodes| ==> Everywhere(nodes[i], NoCClassOnParagraph)
    ensures forall i :: 0 <= i < |ReplaceSpansIn(nodes, styles)| ==> Everywhere(ReplaceSpansIn(nodes, styles)[i], NoCClassOnParagraph)
    decreases nodes
  {
    if nodes != [] {
      ReplaceSpansKeepsClasses(nodes[0], styles);
      ReplaceSpansInKeepsClasses(nodes[1..], styles);
    }
  }

  lemma {:induction false} MergeRunsKeepsClasses(nodes: seq<Node>, tag: string)
    requires forall i :: 0 <= i < |nodes| ==> Everywhere(nodes[i], NoCClassOnParagraph)
    ensures forall i :: 0 <= i < |MergeRuns(nodes, tag)| ==> Everywhere(MergeRuns(nodes, tag)[i], NoCClassOnParagraph)
    decreases |nodes|
  {
    if |nodes| >= 2 {
      if Mergeable(nodes[0], nodes[1], tag) {
        var merged := Absorb(nodes[0], nodes[1]);
        assert merged.children == nodes[0].children + nodes[1].children;
        assert Everywhere(merged, NoCClassOnParagraph);
        MergeRunsKeepsClasses([merged] + nodes[2..], tag);
      } else {
        MergeRunsKeepsClasses(nodes[1..], tag);
      }
    }
  }

  lemma {:induction false} MergeTagKeepsClasses(n: Node, tag: string)
    requires Everywhere(n, NoCClassOnParagraph)
    ensures Everywhere(MergeTag(n, tag), NoCClassOnParagraph)
    decreases Size(n)
  {
    match n
    case Text(_) =>
    case Element(name, classes, attrs, children) =>
      var kids := if name == "p" then MergeRuns(children, tag) else children;
      if name == "p" {
        MergeRunsKeepsClasses(children, tag);
      }
      SizeOfEach(kids);
      var r := MergeTag(n, tag);
      assert r.children == seq(|kids|, i requires 0 <= i < |kids| => MergeTag(kids[i], tag));
      forall i | 0 <= i < |kids| ensures Everywhere(r.children[i], NoCClassOnParagraph) {
        MergeTagKeepsClasses(kids[i], tag);
      }
  }

  lemma {:induction false} MergeSemanticTagsKeepsClasses(n: Node, semanticTags: seq<string>)
    requires Everywhere(n, NoCClassOnParagraph)
    ensures Everywhere(MergeSemanticTags(n, semanticTags), NoCClassOnParagraph)
    decreases |semanticTags|
  {
    if semanticTags != [] {
      MergeTagKeepsClasses(n, semanticTags[0]);
      MergeSemanticTagsKeepsClasses(MergeTag(n, semanticTags[0]), semanticTags[1..]);
    }
  }

  lemma {:induction false} ConsolidateKeepsClasses(n: Node)
    requires Everywhere(n, NoCClassOnParagraph)
    ensures Everywhere(ConsolidateNode(n), NoCClassOnParagraph)
    decreases n, 1
  {
    match n
    case Text(_) =>
    case Element(name, classes, attrs, children) =>
      if name == "p" {
        ConsolidateChildrenKeepsClasses(children, None);
      } else {
        forall i | 0 <= i < |children| ensures Everywhere(ConsolidateAll(children)[i], NoCClassOnParagraph) {
          ConsolidateKeepsClasses(children[i]);
        }
      }
  }

  lemma {:induction false} ConsolidateChildrenKeepsClasses(children: seq<Node>, pending: Option<string>)
    requires forall i :: 0 <= i < |children| ==> Everywhere(children[i], NoCClassOnParagraph)
    ensures forall i :: 0 <= i < |ConsolidateChildren(children, pending)| ==>
              Everywhere(ConsolidateChildren(children, pending)[i], NoCClassOnParagraph)
    decreases children, 0
  {
    if children != [] {
      var c := children[0];
      if c.Text? {
        ConsolidateChildrenKeepsClasses(children[1..], pending);
      } else if c.name == "span" {
        ConsolidateChildrenKeepsClasses(children[1..], AddSpanText(pending, GetText(c)));
      } else {
        ConsolidateChildrenKeepsClasses(children[1..], None);
        ConsolidateKeepsClasses(c);
      }
    }
  }

  lemma {:induction false} StripKeepsClasses(n: Node, inParagraph: bool)
    requires Everywhere(n, NoCClassOnParagraph)
    ensures Everywhere(StripNewlines(n, inParagraph), NoCClassOnParagraph)
    decreases n
  {
    match n
    case Text(_) =>
    case Element(name, classes, attrs, children) =>
      var r := StripNewlines(n, inParagraph);
      forall i | 0 <= i < |children| ensures Everywhere(r.children[i], NoCClassOnParagraph) {
        StripKeepsClasses(children[i], inParagraph || name == "p");
      }
  }

  lemma {:induction false} EnsureKeepsClasses(n: Node)
    requires Everywhere(n, NoCClassOnParagraph)
    ensures Everywhere(EnsureNonempty(n), NoCClassOnParagraph)
    decreases n
  {
    match n
    case Text(_) =>
    case Element(name, classes, attrs, children) =>
      if !IsBlankParagraph(n) {
        var r := EnsureNonempty(n);
        forall i | 0 <= i < |children| ensures Everywhere(r.children[i], NoCClassOnParagraph) {
          EnsureKeepsClasses(children[i]);
        }
      }
  }

  // The last two passes bring back no span child and no newline.

  lemma {:induction false} StripKeepsSpanFree(n: Node, inParagraph: bool)
    requires Everywhere(n, NoSpanChild)
    ensures Everywhere(StripNewlines(n, inParagraph), NoSpanChild)
    decreases n
  {
    match n
    case Text(_) =>
    case Element(name, classes, attrs, children) =>
      var r := StripNewlines(n, inParagraph);
      forall i | 0 <= i < |children| ensures Everywhere(r.children[i], NoSpanChild) && SameHead(r.children[i], children[i]) {
        StripKeepsSpanFree(children[i], inParagraph || name == "p");
      }
  }

  lemma {:induction false} EnsureKeepsSpanFree(n: Node)
    requires Everywhere(n, NoSpanChild)
    ensures Everywhere(EnsureNonempty(n), NoSpanChild)
    decreases n
  {
    match n
    case Text(_) =>
    case Element(name, classes, attrs, children) =>
      if !IsBlankParagraph(n) {
        var r := EnsureNonempty(n);
        forall i | 0 <= i < |children| ensures Everywhere(r.children[i], NoSpanChild) && SameHead(r.children[i], children[i]) {
          EnsureKeepsSpanFree(children[i]);
        }
      }
  }

  /** The fill pass only adds no-break spaces, so text without newlines stays so. */
  lemma {:induction false} EnsureKeepsNewlineFreeText(n: Node)
    requires Everywhere(n, NoNewlineText)
    ensures Everywhere(EnsureNonempty(n), NoNewlineText)
    decreases n
  {
    match n
    case Text(_) =>
    case Element(name, classes, attrs, children) =>
      var r := EnsureNonempty(n);
      if !IsBlankParagraph(n) {
        forall i | 0 <= i < |children| ensures Everywhere(r.children[i], NoNewlineText) {
          EnsureKeepsNewlineFreeText(children[i]);
        }
      } else {
        assert Everywhere(r.children[0], NoNewlineText);
      }
  }

  lemma {:induction false} EnsureKeepsNewlineFree(n: Node)
    requires Everywhere(n, NoNewlineBelow)
    ensures Everywhere(EnsureNonempty(n), NoNewlineBelow)
    decreases n
  {
    match n
    case Text(_) =>
    case Element(name, classes, attrs, children) =>
      var r := EnsureNonempty(n);
      if !IsBlankParagraph(n) {
        forall i | 0 <= i < |children| ensures Everywhere(r.children[i], NoNewlineBelow) {
          EnsureKeepsNewlineFree(children[i]);
        }
        if name == "p" {
          forall i | 0 <= i < |children| ensures Everywhere(r.children[i], NoNewlineText) {
            EnsureKeepsNewlineFreeText(children[i]);
          }
        }
      } else {
        assert Everywhere(r.children[0], NoNewlineText);
        assert Everywhere(r.children[0], NoNewlineBelow);
      }
  }
}
