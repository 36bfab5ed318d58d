/**
 * `apply_paragraph_alignment`: every paragraph takes its alignment from the
 * first of its classes whose `text-align` is set, and loses its generated
 * c-classes.
 */
module ParagraphAlignment {
  import opened Wrappers
  import opened HtmlTree
  import opened GdocUtils

  /** Class name to its `text-align` value (`None` when the rule sets none). */
  type AlignMap = map<string, Option<string>>

  /** `cls in class_align_map and class_align_map[cls]`: a non-empty alignment. */
  predicate HasAlignment(cls: string, alignMap: AlignMap) {
    cls in alignMap && alignMap[cls].Some? && alignMap[cls].value != ""
  }

  /** The alignment of the first class, in order, that has one. */
  function FirstAlignment(classes: seq<string>, alignMap: AlignMap): (r: Option<string>)
    ensures r.None? <==> forall i :: 0 <= i < |classes| ==> !HasAlignment(classes[i], alignMap)
    ensures r.Some? ==> exists k :: 0 <= k < |classes| && HasAlignment(classes[k], alignMap)
                          && r.value == alignMap[classes[k]].value
                          && forall j :: 0 <= j < k ==> !HasAlignment(classes[j], alignMap)
  {
    if classes == [] then None
    else if HasAlignment(classes[0], alignMap) then alignMap[classes[0]]
    else
      var r := FirstAlignment(classes[1..], alignMap);
      assert forall i :: 1 <= i < |classes| ==> classes[i] == classes[1..][i - 1];
      if r.Some? then
        var k :| 0 <= k < |classes[1..]| && HasAlignment(classes[1..][k], alignMap)
                 && r.value == alignMap[classes[1..][k]].value
                 && forall j :: 0 <= j < k ==> !HasAlignment(classes[1..][j], alignMap);
        assert classes[k + 1] == classes[1..][k];
        r
      else r
  }

  /** `[c for c in classes if not is_c_class_name(c)]`. */
  function RemoveCClasses(classes: seq<string>): (r: seq<string>)
    ensures forall i :: 0 <= i < |r| ==> !IsCClassName(r[i])
    ensures forall c :: c in r <==> c in classes && !IsCClassName(c)
    ensures |r| <= |classes|
    ensures (forall i :: 0 <= i < |classes| ==> !IsCClassName(classes[i])) ==> r == classes
  {
    if classes == [] then []
    else if IsCClassName(classes[0]) then RemoveCClasses(classes[1..])
    else [classes[0]] + RemoveCClasses(classes[1..])
  }

  /** The filter keeps order: filtering two lists one after the other is
      filtering each, and one class is kept exactly when it is no c-class. */
  lemma {:induction false} RemoveCClassesAppend(a: seq<string>, b: seq<string>)
    ensures RemoveCClasses(a + b) == RemoveCClasses(a) + RemoveCClasses(b)
    ensures forall c :: RemoveCClasses([c]) == if IsCClassName(c) then [] else [c]
  {
    if a != [] {
      assert (a + b)[0] == a[0];
      assert (a + b)[1..] == a[1..] + b;
      RemoveCClassesAppend(a[1..], b);
    } else {
      assert a + b == b;
    }
    forall c ensures RemoveCClasses([c]) == if IsCClassName(c) then [] else [c] {
      assert [c][1..] == [];
    }
  }

  /** One paragraph: set `align` when an alignment was found, drop c-classes. */
  function AlignParagraph(p: Node, alignMap: AlignMap): (r: Node)
    requires p.Element?
    ensures r.Element? && r.name == p.name && r.children == p.children
    ensures r.classes == RemoveCClasses(p.classes)
    ensures FirstAlignment(p.classes, alignMap).Some? ==>
              r.attrs == p.attrs["align" := FirstAlignment(p.classes, alignMap).value]
    ensures FirstAlignment(p.classes, alignMap).None? ==> r.attrs == p.attrs
  {
    var attrs := match FirstAlignment(p.classes, alignMap)
      case Some(a) => p.attrs["align" := a]
      case None => p.attrs;
    Element(p.name, RemoveCClasses(p.classes), attrs, p.children)
  }

  /** The pass over a node: every paragraph at or below it is aligned. */
  function ApplyAlignment(n: Node, alignMap: AlignMap): (r: Node)
    decreases n
  {
    match n
    case Text(_) => n
    case Element(name, classes, attrs, children) =>
      var kids := seq(|children|, i requires 0 <= i < |children| => ApplyAlignment(children[i], alignMap));
      if name == "p" then AlignParagraph(Element(name, classes, attrs, kids), alignMap)
      else Element(name, classes, attrs, kids)
  }

  /** No paragraph carries a c-class. */
  predicate NoCClassOnParagraph(n: Node) {
    IsParagraph(n) ==> forall j :: 0 <= j < |n.classes| ==> !IsCClassName(n.classes[j])
  }

  /** After the pass no paragraph anywhere carries a c-class; text and element
      names are untouched. */
  lemma {:induction false} AlignmentClearsCClasses(n: Node, alignMap: AlignMap)
    ensures Everywhere(ApplyAlignment(n, alignMap), NoCClassOnParagraph)
    ensures GetText(ApplyAlignment(n, alignMap)) == GetText(n)
    decreases n
  {
    match n
    case Text(_) =>
    case Element(name, classes, attrs, children) =>
      var kids := seq(|children|, i requires 0 <= i < |children| => ApplyAlignment(children[i], alignMap));
      forall i | 0 <= i < |children|
        ensures Everywhere(kids[i], NoCClassOnParagraph) && GetText(kids[i]) == GetText(children[i])
      {
        AlignmentClearsCClasses(children[i], alignMap);
      }
      MappedText(children, kids);
  }
}
