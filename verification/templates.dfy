/**
 * The three format templates of the hover-translation generator, instantiated:
 * the per-pair class name, the anchor snippet that replaces a marker in the HTML,
 * and the CSS block that shows the original text and, on hover or focus, the
 * translation.
 */
module Templates {
  import opened Text

  /** `CLASS_TEMPLATE.format(chapter_id=chapter, index=index)`, i.e. `ch{chapter}text{index}`. */
  function ClassName(chapter: string, index: nat): string {
    "ch" + chapter + "text" + NatToString(index)
  }

  /** Within one chapter, distinct indices give distinct class names. */
  lemma ClassNameInjective(chapter: string, i: nat, j: nat)
    requires ClassName(chapter, i) == ClassName(chapter, j)
    ensures i == j
  {
    var n := |"ch" + chapter + "text"|;
    assert NatToString(i) == ClassName(chapter, i)[n..];
    assert NatToString(j) == ClassName(chapter, j)[n..];
    NatToStringInjective(i, j);
  }

  /** A tag `<inner>`. */
  function Tag(inner: string): string {
    "<" + inner + ">"
  }

  /** The named return anchor `<a name="return{cls}" ... id="return{cls}"></a>`
      that the translation links back to. */
  function ReturnAnchor(cls: string): string {
    Tag("a name=\"return" + cls + "\" rel=\"nofollow\" id=\"return" + cls + "\"") + Tag("/a")
  }

  /** The opening of the link of class `cls` to `#return{cls}`, and of its hidden span. */
  function LinkOpen(cls: string): string {
    Tag("a href=\"#return" + cls + "\" class=\"" + cls + "\" rel=\"nofollow\"") + Tag("span class=\"hide\"")
  }

  /** The markup of `ANCHOR_TEMPLATE` before the original. */
  function AnchorOpen(cls: string): string {
    ReturnAnchor(cls) + LinkOpen(cls)
  }

  /** The markup of `ANCHOR_TEMPLATE` after the original. */
  function AnchorClose(): string {
    Tag("/span") + Tag("/a")
  }

  /** `ANCHOR_TEMPLATE.format(class_str=cls, original=original)`. */
  function Anchor(cls: string, original: string): string {
    AnchorOpen(cls) + original + AnchorClose()
  }

  /** The part of `CSS_TEMPLATE` before the original text. */
  function CssHead(cls: string): string {
    "\n#workskin a." + cls + ":after {\n  content: \""
  }

  /** The part of `CSS_TEMPLATE` between the original and the translated text. */
  function CssMiddle(cls: string): string {
    "\";\n}\n\n#workskin a." + cls + ":hover:after,\n#workskin a." + cls + ":focus:after {\n  content: \""
  }

  /** The part of `CSS_TEMPLATE` after the translated text. */
  const CssTail: string :=
    "\";\n  display: inline;\n  background-color: #FFF;\n  color: #2a2a2a;\n"
    + "  border-bottom: 1px solid #FFF;\n  position: relative;\n  margin: 0px;\n  padding: 0px;\n}\n"

  /** `CSS_TEMPLATE.format(class_str=cls, original=original, translated=translated)`. */
  function CssBlock(cls: string, original: string, translated: string): string {
    CssHead(cls) + original + CssMiddle(cls) + translated + CssTail
  }

  /** The text a browser shows for a piece of markup: everything outside `<...>`.
      `inTag` says whether the piece starts inside a tag. */
  function VisibleText(s: string, inTag: bool): string {
    if s == [] then []
    else if inTag then VisibleText(s[1..], s[0] != '>')
    else if s[0] == '<' then VisibleText(s[1..], true)
    else [s[0]] + VisibleText(s[1..], false)
  }

  /** Whether a piece of markup ends inside a tag. */
  function EndsInTag(s: string, inTag: bool): bool {
    if s == [] then inTag
    else if inTag then EndsInTag(s[1..], s[0] != '>')
    else EndsInTag(s[1..], s[0] == '<')
  }

  lemma {:induction false} VisibleTextConcat(a: string, b: string, inTag: bool)
    ensures VisibleText(a + b, inTag) == VisibleText(a, inTag) + VisibleText(b, EndsInTag(a, inTag))
    ensures EndsInTag(a + b, inTag) == EndsInTag(b, EndsInTag(a, inTag))
  {
    if a == [] {
      assert a + b == b;
    } else {
      assert (a + b)[1..] == a[1..] + b;
      var next := if inTag then a[0] != '>' else a[0] == '<';
      VisibleTextConcat(a[1..], b, next);
    }
  }

  /** Text without angle brackets stays wholly inside or wholly outside a tag. */
  lemma {:induction false} PlainVisibleText(s: string, inTag: bool)
    requires '<' !in s && '>' !in s
    ensures VisibleText(s, inTag) == (if inTag then [] else s)
    ensures EndsInTag(s, inTag) == inTag
  {
    if s != [] {
      PlainVisibleText(s[1..], inTag);
    }
  }

  /** A tag with plain contents shows nothing and closes itself. */
  lemma TagInvisible(inner: string)
    requires '<' !in inner && '>' !in inner
    ensures Invisible(Tag(inner))
  {
    VisibleTextConcat("<", inner + ">", false);
    VisibleTextConcat(inner, ">", true);
    PlainVisibleText(inner, true);
    assert Tag(inner) == "<" + (inner + ">");
  }

  /** Markup that shows nothing and ends outside a tag. */
  predicate Invisible(t: string) {
    VisibleText(t, false) == [] && !EndsInTag(t, false)
  }

  lemma InvisibleConcat(a: string, b: string)
    requires Invisible(a) && Invisible(b)
    ensures Invisible(a + b)
  {
    VisibleTextConcat(a, b, false);
  }

  /** Invisible markup around plain text leaves just that text visible. */
  lemma InvisibleAround(a: string, s: string, b: string)
    requires Invisible(a) && Invisible(b)
    requires '<' !in s && '>' !in s
    ensures VisibleText(a + s + b, false) == s
  {
    PlainVisibleText(s, false);
    VisibleTextConcat(a, s, false);
    VisibleTextConcat(a + s, b, false);
  }

  lemma AnchorOpenInvisible(cls: string)
    requires '<' !in cls && '>' !in cls
    ensures Invisible(AnchorOpen(cls))
  {
    ReturnAnchorInvisible(cls);
    LinkOpenInvisible(cls);
    InvisibleConcat(ReturnAnchor(cls), LinkOpen(cls));
  }

  lemma ReturnAnchorInvisible(cls: string)
    requires '<' !in cls && '>' !in cls
    ensures Invisible(ReturnAnchor(cls))
  {
    TagInvisible("a name=\"return" + cls + "\" rel=\"nofollow\" id=\"return" + cls + "\"");
    TagInvisible("/a");
    InvisibleConcat(Tag("a name=\"return" + cls + "\" rel=\"nofollow\" id=\"return" + cls + "\""), Tag("/a"));
  }

  lemma LinkOpenInvisible(cls: string)
    requires '<' !in cls && '>' !in cls
    ensures Invisible(LinkOpen(cls))
  {
    TagInvisible("a href=\"#return" + cls + "\" class=\"" + cls + "\" rel=\"nofollow\"");
    TagInvisible("span class=\"hide\"");
    InvisibleConcat(Tag("a href=\"#return" + cls + "\" class=\"" + cls + "\" rel=\"nofollow\""), Tag("span class=\"hide\""));
  }

  lemma AnchorCloseInvisible()
    ensures Invisible(AnchorClose())
  {
    TagInvisible("/span");
    TagInvisible("/a");
    InvisibleConcat(Tag("/span"), Tag("/a"));
  }

  /** Replacing a marker by its anchor leaves exactly the original text visible;
      the translation appears only through the CSS. */
  lemma AnchorShowsOriginal(cls: string, original: string)
    requires '<' !in cls && '>' !in cls
    requires '<' !in original && '>' !in original
    ensures VisibleText(Anchor(cls, original), false) == original
  {
    AnchorOpenInvisible(cls);
    AnchorCloseInvisible();
    InvisibleAround(AnchorOpen(cls), original, AnchorClose());
  }
}
