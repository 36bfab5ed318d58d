/**
 * The older command-line copy of the hover-translation generator. Its
 * replacement step is the backend's, with an integer chapter printed by
 * `str()`; its `generate_css` appends to the block list once, after the loop,
 * so it keeps only the last pair's block and raises on an empty pair list.
 *
 * Its templates, pattern and `escape_character` live in files outside this
 * model; they are taken to be the backend's.
 */
module HoverTools {
  import opened Wrappers
  import opened Text
  import opened TranslationPattern
  import opened Templates
  import opened HoverService

  /** What Python raises when the loop never ran and `css_block` is read. */
  const UnboundBlockError: string := "UnboundLocalError: css_block"

  /** `replace_and_extract_translations(html, chapter)`, the chapter an `int`. */
  function ToolsReplaceAndExtract(html: string, chapter: int): (r: (string, seq<Pair>))
    ensures r.1 == Pairs(Scan(html, 0))
    ensures r.0 == Interleave(Gaps(html, 0, Scan(html, 0)), Anchors(Scan(html, 0), IntToString(chapter), 1))
  {
    ReplaceAndExtract(html, IntToString(chapter))
  }

  /** The loop of the tools `generate_css` from pair `i` on: each iteration
      overwrites `css_block`; nothing is kept from earlier iterations. */
  function BlockLoop(pairs: seq<Pair>, chapter: int, i: nat, cssBlock: Option<string>): (r: Option<string>)
    requires i <= |pairs|
    ensures i < |pairs| ==> r == Some(PairBlock(pairs[|pairs| - 1], IntToString(chapter), |pairs|))
    ensures i == |pairs| ==> r == cssBlock
    decreases |pairs| - i
  {
    if i == |pairs| then cssBlock
    else BlockLoop(pairs, chapter, i + 1, Some(PairBlock(pairs[i], IntToString(chapter), i + 1)))
  }

  /** The tools `generate_css(pairs, chapter)` as written: the single
      `css_blocks.append(css_block)` after the loop sees only the last block,
      and with no pairs `css_block` was never bound. */
  function ToolsGenerateCss(pairs: seq<Pair>, chapter: int): (r: Result<string, string>)
    ensures r.Failure? <==> pairs == []
    ensures r.Failure? ==> r.error == UnboundBlockError
    ensures r.Success? ==> r.value == PairBlock(pairs[|pairs| - 1], IntToString(chapter), |pairs|)
  {
    match BlockLoop(pairs, chapter, 0, None)
    case None => Failure(UnboundBlockError)
    case Some(cssBlock) => Success(Join([cssBlock], LineSeparator))
  }

  /** `generate_translations(html, chapter)`: the replacement, then the CSS of
      the extracted pairs, which raises when there were none. */
  function ToolsGenerateTranslations(html: string, chapter: int): (r: Result<(string, string), string>)
    ensures var (newHtml, pairs) := ToolsReplaceAndExtract(html, chapter);
            && (r.Failure? <==> pairs == [])
            && (r.Failure? ==> r.error == UnboundBlockError)
            && (r.Success? ==> r.value == (newHtml, PairBlock(pairs[|pairs| - 1], IntToString(chapter), |pairs|)))
  {
    var (newHtml, pairs) := ToolsReplaceAndExtract(html, chapter);
    match ToolsGenerateCss(pairs, chapter)
    case Failure(e) => Failure(e)
    case Success(css) => Success((newHtml, css))
  }

  /** The tools copy fails exactly when the HTML has no marker; otherwise its
      CSS is the block of the last marker alone, numbered with the number of
      markers. */
  lemma ToolsCssIsLastMarker(html: string, chapter: int)
    ensures var r := ToolsGenerateTranslations(html, chapter);
            var ms := Scan(html, 0);
            && (r.Failure? <==> ms == [])
            && (r.Success? ==> r.value.1 == PairBlock(Pair(ms[|ms| - 1].original, ms[|ms| - 1].translated), IntToString(chapter), |ms|))
  {
    var ms := Scan(html, 0);
    if ms != [] {
      assert Pairs(ms)[|ms| - 1] == Pair(ms[|ms| - 1].original, ms[|ms| - 1].translated);
    }
  }

  /** With two or more pairs the tools copy loses every block but the last: its
      CSS is strictly shorter than the backend's for the same pairs. */
  lemma ToolsCssDropsBlocks(pairs: seq<Pair>, chapter: int)
    requires |pairs| >= 2
    ensures ToolsGenerateCss(pairs, chapter).Success?
    ensures |ToolsGenerateCss(pairs, chapter).value| < |GenerateCss(pairs, IntToString(chapter))|
  {
    var ch := IntToString(chapter);
    var init := pairs[..|pairs| - 1];
    var last := pairs[|pairs| - 1];
    assert pairs == init + [last];
    GenerateCssAppend(init, last, ch);
  }

  /** A page with no marker makes the tools copy raise where the backend
      returns the HTML unchanged with empty CSS. */
  lemma ToolsFailsWithoutMarkers(html: string, chapter: int)
    requires Scan(html, 0) == []
    ensures ToolsGenerateTranslations(html, chapter).Failure?
    ensures GenerateTranslations(html, IntToString(chapter)) == (html, "")
  {
    ReplaceWithoutMarkers(html, IntToString(chapter));
  }

  /** On a single pair the two copies agree. */
  lemma ToolsCssAgreesOnOnePair(p: Pair, chapter: int)
    ensures ToolsGenerateCss([p], chapter) == Success(GenerateCss([p], IntToString(chapter)))
  {
  }
}
