/**
 * `merge_identical_adjacent_tags` and `merge_similar_adjacent_semantic_tags`:
 * inside each paragraph, a run of neighbouring children that are all elements
 * with the given name becomes one element, the first of the run, holding the
 * contents of the whole run in order.
 */
module MergeTags {
  import opened HtmlTree

  /** The number of nodes in a tree. */
  function Size(n: Node): nat
    decreases n
  {
    match n
    case Text(_) => 1
    case Element(_, _, _, children) => 1 + SizeOf(children)
  }

  function SizeOf(nodes: seq<Node>): nat
    decreases nodes
  {
    if nodes == [] then 0 else Size(nodes[0]) + SizeOf(nodes[1..])
  }

  /** No node is larger than the sequence it sits in. */
  lemma {:induction false} SizeOfEach(nodes: seq<Node>)
    ensures forall i :: 0 <= i < |nodes| ==> Size(nodes[i]) <= SizeOf(nodes)
    decreases nodes
  {
    if nodes != [] {
      SizeOfEach(nodes[1..]);
      assert forall i :: 1 <= i < |nodes| ==> nodes[i] == nodes[1..][i - 1];
    }
  }

  lemma {:induction false} SizeOfAppend(a: seq<Node>, b: seq<Node>)
    ensures SizeOf(a + b) == SizeOf(a) + SizeOf(b)
  {
    if a == [] {
      assert a + b == b;
    } else {
      assert (a + b)[1..] == a[1..] + b;
      SizeOfAppend(a[1..], b);
    }
  }

  /** `current` after `current.append(content.extract())` for every content of `next`. */
  function Absorb(current: Node, next: Node): (r: Node)
    requires current.Element? && next.Element?
    ensures r.Element? && r.name == current.name && r.classes == current.classes && r.attrs == current.attrs
    ensures Size(r) == Size(current) + Size(next) - 1
    ensures GetText(r) == GetText(current) + GetText(next)
  {
    SizeOfAppend(current.children, next.children);
    ChildrenTextAppend(current.children, next.children);
    Element(current.name, current.classes, current.attrs, current.children + next.children)
  }

  /** Two neighbours that are both elements named `tag`. */
  predicate Mergeable(a: Node, b: Node, tag: string) {
    IsElementNamed(a, tag) && IsElementNamed(b, tag)
  }

  /** No two neighbouring children are both elements named `tag`. */
  predicate NoAdjacent(nodes: seq<Node>, tag: string) {
    forall i :: 0 <= i < |nodes| - 1 ==> !Mergeable(nodes[i], nodes[i + 1], tag)
  }

  /** The `while` loop over one paragraph's children: when the child at `i` and
      the next are both `tag` elements the next is absorbed and `i` stays;
      otherwise `i` moves on. */
  function MergeRuns(nodes: seq<Node>, tag: string): (r: seq<Node>)
    ensures NoAdjacent(r, tag)
    ensures |r| <= |nodes|
    ensures SizeOf(r) <= SizeOf(nodes)
    ensures ChildrenText(r) == ChildrenText(nodes)
    ensures nodes != [] ==> r != [] && SameHead(r[0], nodes[0])
    decreases |nodes|
  {
    if |nodes| < 2 then nodes
    else if Mergeable(nodes[0], nodes[1], tag) then
      AbsorbKeepsMeasures(nodes);
      MergeRuns([Absorb(nodes[0], nodes[1])] + nodes[2..], tag)
    else
      var tail := MergeRuns(nodes[1..], tag);
      ConsKeepsMeasures(nodes, tail);
      [nodes[0]] + tail
  }

  /** Absorbing the second child into the first keeps the text and loses one
      node. */
  lemma AbsorbKeepsMeasures(nodes: seq<Node>)
    requires |nodes| >= 2 && nodes[0].Element? && nodes[1].Element?
    ensures var rest := [Absorb(nodes[0], nodes[1])] + nodes[2..];
            && SizeOf(rest) == SizeOf(nodes) - 1
            && ChildrenText(rest) == ChildrenText(nodes)
  {
    var rest := [Absorb(nodes[0], nodes[1])] + nodes[2..];
    assert rest[1..] == nodes[2..];
    assert nodes[1..][1..] == nodes[2..];
  }

  /** Keeping the first child in front of a merged tail: the measures add up. */
  lemma ConsKeepsMeasures(nodes: seq<Node>, tail: seq<Node>)
    requires nodes != []
    requires SizeOf(tail) <= SizeOf(nodes[1..])
    requires ChildrenText(tail) == ChildrenText(nodes[1..])
    ensures SizeOf([nodes[0]] + tail) <= SizeOf(nodes)
    ensures ChildrenText([nodes[0]] + tail) == ChildrenText(nodes)
    ensures forall i :: 1 <= i < |tail| + 1 ==> ([nodes[0]] + tail)[i] == tail[i - 1]
  {
    assert ([nodes[0]] + tail)[1..] == tail;
  }

  /** Same kind of node, and for elements the same name, classes and attributes. */
  predicate SameHead(a: Node, b: Node) {
    && a.Text? == b.Text?
    && (a.Element? ==> a.name == b.name && a.classes == b.classes && a.attrs == b.attrs)
  }

  /** The nodes `tag` elements stand for once opened: each `tag` element is
      replaced by its children, every other node kept. */
  function Spread(nodes: seq<Node>, tag: string): seq<Node>
  {
    if nodes == [] then []
    else (if IsElementNamed(nodes[0], tag) then nodes[0].children else [nodes[0]]) + Spread(nodes[1..], tag)
  }

  lemma {:induction false} SpreadAppend(a: seq<Node>, b: seq<Node>, tag: string)
    ensures Spread(a + b, tag) == Spread(a, tag) + Spread(b, tag)
  {
    if a == [] {
      assert a + b == b;
    } else {
      assert (a + b)[1..] == a[1..] + b;
      SpreadAppend(a[1..], b, tag);
    }
  }

  /** Merging moves contents and nothing else: opening every `tag` element
      before and after gives the same nodes in the same order. */
  lemma {:induction false} MergeRunsKeepsContents(nodes: seq<Node>, tag: string)
    ensures Spread(MergeRuns(nodes, tag), tag) == Spread(nodes, tag)
    decreases |nodes|
  {
    if |nodes| >= 2 {
      if Mergeable(nodes[0], nodes[1], tag) {
        var merged := Absorb(nodes[0], nodes[1]);
        var rest := [merged] + nodes[2..];
        MergeRunsKeepsContents(rest, tag);
        SpreadAppend([merged], nodes[2..], tag);
        assert nodes == [nodes[0], nodes[1]] + nodes[2..];
        SpreadAppend([nodes[0], nodes[1]], nodes[2..], tag);
        assert [nodes[0], nodes[1]][1..] == [nodes[1]];
        assert [merged][1..] == [];
      } else {
        MergeRunsKeepsContents(nodes[1..], tag);
        assert ([nodes[0]] + MergeRuns(nodes[1..], tag))[1..] == MergeRuns(nodes[1..], tag);
      }
    }
  }

  /** The number of `tag` elements the sequence starts with. */
  function LeadingRun(nodes: seq<Node>, tag: string): (k: nat)
    ensures k <= |nodes|
    decreases |nodes|
  {
    if nodes == [] || !IsElementNamed(nodes[0], tag) then 0
    else 1 + LeadingRun(nodes[1..], tag)
  }

  /** The independent description of the merge: every maximal run of
      neighbouring `tag` elements becomes its first element (same name,
      classes and attributes) holding the contents of the whole run in order;
      every other node stays where it is. */
  function Regroup(nodes: seq<Node>, tag: string): seq<Node>
    decreases |nodes|
  {
    if nodes == [] then []
    else
      var k := LeadingRun(nodes, tag);
      if k == 0 then [nodes[0]] + Regroup(nodes[1..], tag)
      else
        var first := nodes[0];
        [Element(first.name, first.classes, first.attrs, Spread(nodes[..k], tag))] + Regroup(nodes[k..], tag)
  }

  /** One step of the loop when the first two children merge. */
  lemma MergeRunsAbsorbs(nodes: seq<Node>, tag: string)
    requires |nodes| >= 2 && Mergeable(nodes[0], nodes[1], tag)
    ensures MergeRuns(nodes, tag) == MergeRuns([Grown(nodes[0], nodes[1].children)] + nodes[2..], tag)
  {
    assert Absorb(nodes[0], nodes[1]) == Grown(nodes[0], nodes[1].children);
  }

  /** One step of the loop when the first two children do not merge. */
  lemma MergeRunsMovesOn(nodes: seq<Node>, tag: string)
    requires nodes != [] && (|nodes| >= 2 ==> !Mergeable(nodes[0], nodes[1], tag))
    ensures MergeRuns(nodes, tag) == [nodes[0]] + MergeRuns(nodes[1..], tag)
  {
    if |nodes| < 2 {
      assert nodes[1..] == [];
    }
  }

  /** Opening a `tag` element in front of a run puts its children first. */
  lemma SpreadCons(x: Node, run: seq<Node>, tag: string)
    requires IsElementNamed(x, tag)
    ensures Spread([x] + run, tag) == x.children + Spread(run, tag)
  {
    assert ([x] + run)[1..] == run;
  }

  /** The loop does exactly what `Regroup` describes. */
  lemma {:induction false} MergeRunsIsRegroup(nodes: seq<Node>, tag: string)
    ensures MergeRuns(nodes, tag) == Regroup(nodes, tag)
    decreases |nodes|, 2
  {
    if nodes != [] {
      var rest := nodes[1..];
      assert nodes == [nodes[0]] + rest;
      if IsElementNamed(nodes[0], tag) {
        var k := LeadingRun(rest, tag);
        MergeIntoHead(nodes[0], rest, tag);
        assert LeadingRun(nodes, tag) == k + 1;
        assert nodes[..k + 1] == [nodes[0]] + rest[..k];
        SpreadCons(nodes[0], rest[..k], tag);
        assert nodes[k + 1..] == rest[k..];
      } else {
        MergeRunsMovesOn(nodes, tag);
        MergeRunsIsRegroup(rest, tag);
      }
    }
  }

  /** The element `head` with `extra` appended to its contents. */
  function Grown(head: Node, extra: seq<Node>): Node
    requires head.Element?
  {
    Element(head.name, head.classes, head.attrs, head.children + extra)
  }

  lemma GrownTwice(head: Node, a: seq<Node>, b: seq<Node>)
    requires head.Element?
    ensures Grown(Grown(head, a), b) == Grown(head, a + b)
  {
    assert (head.children + a) + b == head.children + (a + b);
  }

  /** A `tag` element `head` in front of `rest` absorbs the run `rest` starts
      with, then the merge goes on after it. */
  lemma {:induction false} MergeIntoHead(head: Node, rest: seq<Node>, tag: string)
    requires IsElementNamed(head, tag)
    ensures MergeRuns([head] + rest, tag)
            == [Grown(head, Spread(rest[..LeadingRun(rest, tag)], tag))] + Regroup(rest[LeadingRun(rest, tag)..], tag)
    decreases |rest| + 1, 1
  {
    if rest == [] || !IsElementNamed(rest[0], tag) {
      var nodes := [head] + rest;
      assert nodes[1..] == rest;
      assert LeadingRun(rest, tag) == 0;
      assert rest[..0] == [] && rest[0..] == rest;
      assert head == Grown(head, []);
      MergeRunsMovesOn(nodes, tag);
      MergeRunsIsRegroup(rest, tag);
    } else {
      MergeIntoHeadAbsorbing(head, rest, tag);
    }
  }

  /** The case of `MergeIntoHead` where `rest` starts with a `tag` element. */
  lemma {:induction false} MergeIntoHeadAbsorbing(head: Node, rest: seq<Node>, tag: string)
    requires IsElementNamed(head, tag)
    requires rest != [] && IsElementNamed(rest[0], tag)
    ensures MergeRuns([head] + rest, tag)
            == [Grown(head, Spread(rest[..LeadingRun(rest, tag)], tag))] + Regroup(rest[LeadingRun(rest, tag)..], tag)
    decreases |rest| + 1, 0
  {
    var merged := Grown(head, rest[0].children);
    AbsorbFront(head, rest, tag);
    MergeIntoHead(merged, rest[1..], tag);
    RunAfterFront(head, rest, tag);
  }

  /** The loop's first step on a `tag` element followed by another. */
  lemma AbsorbFront(head: Node, rest: seq<Node>, tag: string)
    requires IsElementNamed(head, tag)
    requires rest != [] && IsElementNamed(rest[0], tag)
    ensures MergeRuns([head] + rest, tag) == MergeRuns([Grown(head, rest[0].children)] + rest[1..], tag)
  {
    var nodes := [head] + rest;
    assert nodes[0] == head && nodes[1] == rest[0] && nodes[2..] == rest[1..];
    MergeRunsAbsorbs(nodes, tag);
  }

  /** Growing `head` by the run of `rest` one element at a time is growing it
      by the whole run, and what follows the run is the same. */
  lemma RunAfterFront(head: Node, rest: seq<Node>, tag: string)
    requires IsElementNamed(head, tag)
    requires rest != [] && IsElementNamed(rest[0], tag)
    ensures var tail := rest[1..];
            var j := LeadingRun(tail, tag);
            && Grown(Grown(head, rest[0].children), Spread(tail[..j], tag)) == Grown(head, Spread(rest[..LeadingRun(rest, tag)], tag))
            && tail[j..] == rest[LeadingRun(rest, tag)..]
  {
    var tail := rest[1..];
    var j := LeadingRun(tail, tag);
    var k := LeadingRun(rest, tag);
    assert k == j + 1;
    assert rest[..k] == [rest[0]] + tail[..j];
    SpreadCons(rest[0], tail[..j], tag);
    GrownTwice(head, rest[0].children, Spread(tail[..j], tag));
    assert tail[j..] == rest[k..];
  }

  /** Children without neighbouring `tag` elements are left alone, so merging
      twice is merging once. */
  lemma {:induction false} MergeRunsIdentity(nodes: seq<Node>, tag: string)
    requires NoAdjacent(nodes, tag)
    ensures MergeRuns(nodes, tag) == nodes
    decreases |nodes|
  {
    if |nodes| >= 2 {
      assert !Mergeable(nodes[0], nodes[1], tag);
      MergeRunsIdentity(nodes[1..], tag);
    }
  }

  lemma MergeRunsIdempotent(nodes: seq<Node>, tag: string)
    ensures MergeRuns(MergeRuns(nodes, tag), tag) == MergeRuns(nodes, tag)
  {
    MergeRunsIdentity(MergeRuns(nodes, tag), tag);
  }

  /** `merge_identical_adjacent_tags(soup, tag)` on one node: every paragraph's
      children are merged, then the pass goes on below, into the merged
      children (the paragraphs are visited in document order). */
  function MergeTag(n: Node, tag: string): (r: Node)
    ensures SameHead(r, n)
    ensures GetText(r) == GetText(n)
    decreases Size(n)
  {
    match n
    case Text(_) => n
    case Element(name, classes, attrs, children) =>
      var kids := if name == "p" then MergeRuns(children, tag) else children;
      SizeOfEach(kids);
      var out := seq(|kids|, i requires 0 <= i < |kids| => MergeTag(kids[i], tag));
      MappedText(kids, out);
      Element(name, classes, attrs, out)
  }

  /** After the pass no paragraph has two neighbouring `tag` children. */
  predicate NoAdjacentInParagraph(n: Node, tag: string) {
    IsParagraph(n) ==> NoAdjacent(n.children, tag)
  }

  lemma {:induction false} MergeTagSeparatesRuns(n: Node, tag: string)
    ensures Everywhere(MergeTag(n, tag), m => NoAdjacentInParagraph(m, tag))
    decreases Size(n)
  {
    match n
    case Text(_) =>
    case Element(name, classes, attrs, children) =>
      var kids := if name == "p" then MergeRuns(children, tag) else children;
      SizeOfEach(kids);
      var r := MergeTag(n, tag);
      assert r.children == seq(|kids|, i requires 0 <= i < |kids| => MergeTag(kids[i], tag));
      forall i | 0 <= i < |kids|
        ensures Everywhere(r.children[i], m => NoAdjacentInParagraph(m, tag))
      {
        MergeTagSeparatesRuns(kids[i], tag);
      }
      if name == "p" {
        forall i | 0 <= i < |kids| - 1 ensures !Mergeable(r.children[i], r.children[i + 1], tag) {
          assert !Mergeable(kids[i], kids[i + 1], tag);
        }
      }
  }

  /** `merge_similar_adjacent_semantic_tags`: one merge pass per tag of
      `SEMANTIC_TAGS`, in order. */
  function MergeSemanticTags(n: Node, semanticTags: seq<string>): (r: Node)
    ensures SameHead(r, n)
    ensures GetText(r) == GetText(n)
    decreases |semanticTags|
  {
    if semanticTags == [] then n
    else MergeSemanticTags(MergeTag(n, semanticTags[0]), semanticTags[1..])
  }
}
