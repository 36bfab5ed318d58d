/**
 * The parsed document the Google-Docs cleaner works on: text nodes and
 * elements with a name, a class list, the other attributes and children.
 * A document is the sequence of its top-level nodes.
 *
 * The class list `[]` stands for an element without a `class` attribute.
 */
module HtmlTree {

  datatype Node =
    | Text(text: string)
    | Element(name: string, classes: seq<string>, attrs: map<string, string>, children: seq<Node>)

  type Document = seq<Node>

  predicate IsElementNamed(n: Node, name: string) {
    n.Element? && n.name == name
  }

  predicate IsParagraph(n: Node) {
    IsElementNamed(n, "p")
  }

  predicate IsSpan(n: Node) {
    IsElementNamed(n, "span")
  }

  /** The strings of `ss`, one after the other. */
  function Flatten<T>(ss: seq<seq<T>>): seq<T> {
    if ss == [] then [] else ss[0] + Flatten(ss[1..])
  }

  lemma {:induction false} FlattenAppend<T>(a: seq<seq<T>>, b: seq<seq<T>>)
    ensures Flatten(a + b) == Flatten(a) + Flatten(b)
  {
    if a == [] {
      assert a + b == b;
    } else {
      assert (a + b)[1..] == a[1..] + b;
      FlattenAppend(a[1..], b);
    }
  }

  lemma FlattenSingle<T>(s: seq<T>)
    ensures Flatten([s]) == s
  {
    assert [s][1..] == [];
  }

  /** `get_text()`: every text node below `n`, in document order. */
  function GetText(n: Node): string
    decreases n
  {
    match n
    case Text(t) => t
    case Element(_, _, _, children) => ChildrenText(children)
  }

  /** The text of a sequence of sibling nodes. */
  function ChildrenText(children: seq<Node>): string
    decreases children
  {
    if children == [] then [] else GetText(children[0]) + ChildrenText(children[1..])
  }

  lemma {:induction false} ChildrenTextAppend(a: seq<Node>, b: seq<Node>)
    ensures ChildrenText(a + b) == ChildrenText(a) + ChildrenText(b)
  {
    if a == [] {
      assert a + b == b;
    } else {
      assert (a + b)[1..] == a[1..] + b;
      ChildrenTextAppend(a[1..], b);
    }
  }

  /** Siblings with the same texts have the same text. */
  lemma {:induction false} MappedText(a: seq<Node>, b: seq<Node>)
    requires |a| == |b|
    requires forall i :: 0 <= i < |a| ==> GetText(b[i]) == GetText(a[i])
    ensures ChildrenText(b) == ChildrenText(a)
  {
    if a != [] {
      MappedText(a[1..], b[1..]);
    }
  }

  /** `P` holds at `n` and at every node below it. */
  predicate Everywhere(n: Node, P: Node -> bool)
    decreases n
  {
    && P(n)
    && (n.Element? ==> forall i :: 0 <= i < |n.children| ==> Everywhere(n.children[i], P))
  }

  /** `P` holds at every node of the document. */
  predicate EverywhereIn(doc: Document, P: Node -> bool) {
    forall i :: 0 <= i < |doc| ==> Everywhere(doc[i], P)
  }
}
