/**
 * The class-name tests of the Google-Docs cleaner and its detector for
 * Google-Docs exports. Google Docs names its generated classes `c` followed by
 * a number (`c1`, `c23`).
 */
module GdocUtils {
  import opened Text
  import opened Wrappers
  import opened HtmlTree

  /** `is_c_class_selector`: `.c` followed by one or more digits. */
  function IsCClassSelector(selector: string): (r: bool)
    ensures r <==> |selector| >= 3 && selector[0] == '.' && selector[1] == 'c'
                   && forall i :: 2 <= i < |selector| ==> IsDigit(selector[i])
  {
    StartsWith(selector, ".c") && IsDigits(selector[2..])
  }

  /** `is_c_class_name`: `c` followed by one or more digits. */
  function IsCClassName(name: string): (r: bool)
    ensures r <==> |name| >= 2 && name[0] == 'c' && forall i :: 1 <= i < |name| ==> IsDigit(name[i])
  {
    StartsWith(name, "c") && IsDigits(name[1..])
  }

  /** The two tests agree: a selector is a c-class selector exactly when the
      class it names is a c-class name. */
  lemma SelectorNamesClass(name: string)
    ensures IsCClassSelector("." + name) == IsCClassName(name)
  {
    var s := "." + name;
    assert |s| == |name| + 1 && s[0] == '.';
    assert forall i :: 1 <= i < |s| ==> s[i] == name[i - 1];
    if forall i :: 1 <= i < |name| ==> IsDigit(name[i]) {
      forall i | 2 <= i < |s| ensures IsDigit(s[i]) {
        assert s[i] == name[i - 1];
      }
    }
    if forall i :: 2 <= i < |s| ==> IsDigit(s[i]) {
      forall i | 1 <= i < |name| ensures IsDigit(name[i]) {
        assert name[i] == s[i + 1];
      }
    }
  }

  /** `isdigit` is false on the empty string, so a bare prefix is rejected. */
  lemma BarePrefixRejected()
    ensures !IsCClassName("c")
    ensures !IsCClassSelector(".c")
  {
  }

  /** The element nodes at and below `n`, in document order (`find_all(True)`). */
  function Elements(n: Node): (r: seq<Node>)
    ensures forall e :: e in r ==> e.Element?
    ensures n.Element? ==> r != [] && r[0] == n
    decreases n
  {
    match n
    case Text(_) => []
    case Element(_, _, _, children) => [n] + ElementsOf(children)
  }

  /** The element nodes of a sequence of siblings and their descendants. */
  function ElementsOf(nodes: seq<Node>): (r: seq<Node>)
    ensures forall e :: e in r ==> e.Element?
    decreases nodes
  {
    if nodes == [] then [] else Elements(nodes[0]) + ElementsOf(nodes[1..])
  }

  /** Some class of `e` is a c-class name. */
  predicate HasCClass(e: Node)
    requires e.Element?
  {
    exists j :: 0 <= j < |e.classes| && IsCClassName(e.classes[j])
  }

  /** The first element named `name` in document order, as `soup.find(name)`
      finds it. */
  function FindFirst(els: seq<Node>, name: string): (r: Option<Node>)
    ensures r.Some? ==> r.value in els && IsElementNamed(r.value, name)
    ensures r.None? ==> forall e :: e in els ==> !IsElementNamed(e, name)
    ensures r.Some? ==> exists k :: 0 <= k < |els| && els[k] == r.value
                                  && forall j :: 0 <= j < k ==> !IsElementNamed(els[j], name)
  {
    if els == [] then None
    else if IsElementNamed(els[0], name) then Some(els[0])
    else
      var r := FindFirst(els[1..], name);
      if r.Some? then
        var k :| 0 <= k < |els[1..]| && els[1..][k] == r.value
                 && forall j :: 0 <= j < k ==> !IsElementNamed(els[1..][j], name);
        assert els[k + 1] == r.value;
        r
      else r
  }

  /** Whether any element in `els` carries a c-class. */
  function AnyCClass(els: seq<Node>): (r: bool)
    requires forall e :: e in els ==> e.Element?
    ensures r <==> exists k :: 0 <= k < |els| && HasCClass(els[k])
  {
    if els == [] then false
    else if exists j :: 0 <= j < |els[0].classes| && IsCClassName(els[0].classes[j]) then true
    else
      var r := AnyCClass(els[1..]);
      assert forall k :: 1 <= k < |els| ==> els[k] == els[1..][k - 1];
      r
  }

  /** `is_gdoc_html` on the parsed document: the first `body` carries the class
      `doc-content`, and some element anywhere carries a c-class. */
  function IsGdocHtml(doc: Document): (r: bool)
    ensures r <==>
      && FindFirst(ElementsOf(doc), "body").Some?
      && "doc-content" in FindFirst(ElementsOf(doc), "body").value.classes
      && exists k :: 0 <= k < |ElementsOf(doc)| && HasCClass(ElementsOf(doc)[k])
  {
    var els := ElementsOf(doc);
    match FindFirst(els, "body")
    case None => false
    case Some(body) => "doc-content" in body.classes && AnyCClass(els)
  }
}
