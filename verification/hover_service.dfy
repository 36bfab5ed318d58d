/**
 * The backend hover-translation service: markers `{original [translated]}` in
 * the HTML are replaced by numbered anchors, the (original, translated) pairs
 * are collected in order, and one CSS block per pair shows the translation on
 * hover or focus.
 */
module HoverService {
  import opened Wrappers
  import opened Text
  import opened Escape
  import opened TranslationPattern
  import opened Templates
  import opened BackendCommons

  /** One extracted `(original, translated)` tuple. */
  datatype Pair = Pair(original: string, translated: string)

  /** `os.linesep`, fixed to a line feed. */
  const LineSeparator: string := "\n"

  // ---------------------------------------------------------------------------
  // `TRANSLATION_PATTERN.sub(replacement, html)`
  // ---------------------------------------------------------------------------

  /** `re.sub` with the `replacement` callback, walking `s` from `pos`: a
      character where no marker starts is copied; a marker is replaced by the
      anchor whose class carries the running count of pairs, and its pair is
      appended to `acc` (the callback's `translation_pairs`). */
  function Sub(s: string, pos: nat, chapter: string, acc: seq<Pair>): (seq<char>, seq<Pair>)
    requires pos <= |s|
    decreases |s| - pos
  {
    if pos == |s| then ([], acc)
    else
      match MatchAt(s, pos)
      case None =>
        var (html, pairs) := Sub(s, pos + 1, chapter, acc);
        ([s[pos]] + html, pairs)
      case Some(m) =>
        var acc' := acc + [Pair(m.original, m.translated)];
        var (html, pairs) := Sub(s, End(m), chapter, acc');
        (Anchor(ClassName(chapter, |acc'|), m.original) + html, pairs)
  }

  /** The pairs of a sequence of markers. */
  function Pairs(ms: seq<Match>): (ps: seq<Pair>)
    ensures |ps| == |ms|
    ensures forall i :: 0 <= i < |ms| ==> ps[i] == Pair(ms[i].original, ms[i].translated)
  {
    seq(|ms|, i requires 0 <= i < |ms| => Pair(ms[i].original, ms[i].translated))
  }

  /** The anchors that replace the markers `ms`, numbered from `first`. */
  function Anchors(ms: seq<Match>, chapter: string, first: nat): (r: seq<string>)
    ensures |r| == |ms|
  {
    seq(|ms|, i requires 0 <= i < |ms| => Anchor(ClassName(chapter, first + i), ms[i].original))
  }

  /** The stretches of `s` outside the markers `ms` of a tiling from `pos`: the
      text before the first marker, between each two, and after the last. */
  function Gaps(s: string, pos: nat, ms: seq<Match>): (gs: seq<string>)
    requires LeftmostTiling(s, pos, ms)
    ensures |gs| == |ms| + 1
    decreases |ms|
  {
    if ms == [] then [s[pos..]]
    else [s[pos..ms[0].start]] + Gaps(s, End(ms[0]), ms[1..])
  }

  /** `gaps[0] + items[0] + gaps[1] + ... + items[n-1] + gaps[n]`. */
  function Interleave(gaps: seq<string>, items: seq<string>): string
    requires |gaps| == |items| + 1
    decreases |items|
  {
    if items == [] then gaps[0]
    else gaps[0] + items[0] + Interleave(gaps[1..], items[1..])
  }

  lemma InterleavePrepend(c: char, gaps: seq<string>, items: seq<string>)
    requires |gaps| == |items| + 1
    ensures Interleave([[c] + gaps[0]] + gaps[1..], items) == [c] + Interleave(gaps, items)
  {
    var gs := [[c] + gaps[0]] + gaps[1..];
    assert gs[1..] == gaps[1..];
  }

  /** `Sub` agrees with the scan from `pos`. */
  predicate SubAgrees(s: string, pos: nat, chapter: string, acc: seq<Pair>)
    requires pos <= |s|
  {
    var ms := Scan(s, pos);
    && Sub(s, pos, chapter, acc).0 == Interleave(Gaps(s, pos, ms), Anchors(ms, chapter, |acc| + 1))
    && Sub(s, pos, chapter, acc).1 == acc + Pairs(ms)
  }

  lemma SubCopyStep(s: string, pos: nat, chapter: string, acc: seq<Pair>)
    requires pos < |s| && MatchAt(s, pos).None?
    requires SubAgrees(s, pos + 1, chapter, acc)
    ensures SubAgrees(s, pos, chapter, acc)
  {
    var ms := Scan(s, pos + 1);
    ScanAtPlain(s, pos);
    SubAtPlain(s, pos, chapter, acc);
    GapsAtPlain(s, pos, ms);
    InterleavePrepend(s[pos], Gaps(s, pos + 1, ms), Anchors(ms, chapter, |acc| + 1));
  }

  lemma ScanAtPlain(s: string, pos: nat)
    requires pos < |s| && MatchAt(s, pos).None?
    ensures Scan(s, pos) == Scan(s, pos + 1)
  {
  }

  lemma SubAtPlain(s: string, pos: nat, chapter: string, acc: seq<Pair>)
    requires pos < |s| && MatchAt(s, pos).None?
    ensures var tail := Sub(s, pos + 1, chapter, acc);
            Sub(s, pos, chapter, acc) == ([s[pos]] + tail.0, tail.1)
  {
  }

  lemma GapsAtPlain(s: string, pos: nat, ms: seq<Match>)
    requires pos < |s| && MatchAt(s, pos).None?
    requires LeftmostTiling(s, pos + 1, ms)
    ensures LeftmostTiling(s, pos, ms)
    ensures var gs := Gaps(s, pos + 1, ms);
            Gaps(s, pos, ms) == [[s[pos]] + gs[0]] + gs[1..]
  {
    TilingStep(s, pos, ms);
    var gs := Gaps(s, pos + 1, ms);
    if ms == [] {
      assert s[pos..] == [s[pos]] + s[pos + 1..];
    } else {
      assert s[pos..ms[0].start] == [s[pos]] + s[pos + 1..ms[0].start];
    }
  }

  lemma SubReplaceStep(s: string, pos: nat, chapter: string, acc: seq<Pair>, m: Match)
    requires pos < |s| && MatchAt(s, pos) == Some(m)
    requires SubAgrees(s, End(m), chapter, acc + [Pair(m.original, m.translated)])
    ensures SubAgrees(s, pos, chapter, acc)
  {
    var acc' := acc + [Pair(m.original, m.translated)];
    var rest := Scan(s, End(m));
    ScanAtMarker(s, pos, m);
    SubAtMarker(s, pos, chapter, acc, m);
    GapsAtMarker(s, pos, m, rest);
    AnchorsCons(m, rest, chapter, |acc| + 1);
    PairsCons(m, rest);
    ReplaceCombine(Sub(s, pos, chapter, acc), Sub(s, End(m), chapter, acc'),
      Anchor(ClassName(chapter, |acc'|), m.original),
      Gaps(s, End(m), rest), Anchors(rest, chapter, |acc'| + 1),
      acc, Pair(m.original, m.translated), Pairs(rest));
  }

  /** The bookkeeping of one replacement, with every term abstract. */
  lemma ReplaceCombine(sub: (string, seq<Pair>), tail: (string, seq<Pair>), anchor: string,
                       gaps: seq<string>, anchors: seq<string>, acc: seq<Pair>, p: Pair, pairs: seq<Pair>)
    requires |gaps| == |anchors| + 1
    requires sub == (anchor + tail.0, tail.1)
    requires tail.0 == Interleave(gaps, anchors)
    requires tail.1 == acc + [p] + pairs
    ensures sub.0 == Interleave([[]] + gaps, [anchor] + anchors)
    ensures sub.1 == acc + ([p] + pairs)
  {
    InterleaveCons(gaps, anchor, anchors);
  }

  lemma ScanAtMarker(s: string, pos: nat, m: Match)
    requires pos < |s| && MatchAt(s, pos) == Some(m)
    ensures Scan(s, pos) == [m] + Scan(s, End(m))
  {
  }

  lemma SubAtMarker(s: string, pos: nat, chapter: string, acc: seq<Pair>, m: Match)
    requires pos < |s| && MatchAt(s, pos) == Some(m)
    ensures var acc' := acc + [Pair(m.original, m.translated)];
            var tail := Sub(s, End(m), chapter, acc');
            Sub(s, pos, chapter, acc) == (Anchor(ClassName(chapter, |acc'|), m.original) + tail.0, tail.1)
  {
  }

  lemma GapsAtMarker(s: string, pos: nat, m: Match, rest: seq<Match>)
    requires MatchAt(s, pos) == Some(m)
    requires LeftmostTiling(s, pos, [m] + rest)
    ensures LeftmostTiling(s, End(m), rest)
    ensures Gaps(s, pos, [m] + rest) == [[]] + Gaps(s, End(m), rest)
  {
    var ms := [m] + rest;
    assert ms[0] == m && ms[1..] == rest;
    assert s[pos..m.start] == [];
  }

  lemma AnchorsCons(m: Match, rest: seq<Match>, chapter: string, first: nat)
    ensures Anchors([m] + rest, chapter, first)
         == [Anchor(ClassName(chapter, first), m.original)] + Anchors(rest, chapter, first + 1)
  {
    var ms := [m] + rest;
    assert forall i :: 0 < i < |ms| ==> ms[i] == rest[i - 1];
  }

  lemma PairsCons(m: Match, rest: seq<Match>)
    ensures Pairs([m] + rest) == [Pair(m.original, m.translated)] + Pairs(rest)
  {
  }

  lemma InterleaveCons(gaps: seq<string>, item: string, items: seq<string>)
    requires |gaps| == |items| + 1
    ensures Interleave([[]] + gaps, [item] + items) == item + Interleave(gaps, items)
  {
    var gs, xs := [[]] + gaps, [item] + items;
    assert gs[1..] == gaps && xs[1..] == items;
  }

  /** The walk of `re.sub` does what its specification says: the output is the
      text outside the leftmost non-overlapping markers, copied unchanged, with
      the k-th of them replaced by the anchor numbered k, and the pairs are
      those markers' groups, in order. */
  lemma {:induction false} SubIsScan(s: string, pos: nat, chapter: string, acc: seq<Pair>)
    requires pos <= |s|
    ensures SubAgrees(s, pos, chapter, acc)
    decreases |s| - pos
  {
    if pos < |s| {
      match MatchAt(s, pos)
      case None =>
        SubIsScan(s, pos + 1, chapter, acc);
        SubCopyStep(s, pos, chapter, acc);
      case Some(m) =>
        SubIsScan(s, End(m), chapter, acc + [Pair(m.original, m.translated)]);
        SubReplaceStep(s, pos, chapter, acc, m);
    }
  }

  // ---------------------------------------------------------------------------
  // service.py
  // ---------------------------------------------------------------------------

  /** `replace_and_extract_translations(html, chapter_id)`. */
  function ReplaceAndExtract(html: string, chapterId: string): (r: (string, seq<Pair>))
    ensures r.1 == Pairs(Scan(html, 0))
    ensures r.0 == Interleave(Gaps(html, 0, Scan(html, 0)), Anchors(Scan(html, 0), chapterId, 1))
  {
    SubIsScan(html, 0, chapterId, []);
    assert [] + Pairs(Scan(html, 0)) == Pairs(Scan(html, 0));
    Sub(html, 0, chapterId, [])
  }

  /** Without markers the HTML comes back as it was and no pair is extracted. */
  lemma ReplaceWithoutMarkers(html: string, chapterId: string)
    requires Scan(html, 0) == []
    ensures ReplaceAndExtract(html, chapterId) == (html, [])
  {
    assert Gaps(html, 0, []) == [html[0..]];
    assert html[0..] == html;
  }

  /** The CSS block of the pair numbered `index`, with `"` escaped in both texts. */
  function PairBlock(p: Pair, chapterId: string, index: nat): string {
    CssBlock(ClassName(chapterId, index), EscapeCharacter(p.original, '"'), EscapeCharacter(p.translated, '"'))
  }

  /** The blocks of `pairs`, numbered from 1 as `enumerate(pairs, 1)` does. */
  function Blocks(pairs: seq<Pair>, chapterId: string): (bs: seq<string>)
    ensures |bs| == |pairs|
    ensures forall k :: 0 <= k < |pairs| ==> bs[k] == PairBlock(pairs[k], chapterId, k + 1)
  {
    seq(|pairs|, k requires 0 <= k < |pairs| => PairBlock(pairs[k], chapterId, k + 1))
  }

  /** `generate_css(pairs, chapter_id)`: the blocks joined by the line separator. */
  function GenerateCss(pairs: seq<Pair>, chapterId: string): (css: string)
    ensures css == "" <==> pairs == []
    ensures |pairs| == 1 ==> css == PairBlock(pairs[0], chapterId, 1)
  {
    var bs := Blocks(pairs, chapterId);
    JoinLength(bs, LineSeparator);
    Join(bs, LineSeparator)
  }

  /** One more pair adds one more block, after a line separator. */
  lemma GenerateCssAppend(pairs: seq<Pair>, p: Pair, chapterId: string)
    requires pairs != []
    ensures GenerateCss(pairs + [p], chapterId)
         == GenerateCss(pairs, chapterId) + LineSeparator + PairBlock(p, chapterId, |pairs| + 1)
  {
    var bs := Blocks(pairs, chapterId);
    assert Blocks(pairs + [p], chapterId) == bs + [PairBlock(p, chapterId, |pairs| + 1)];
    JoinSnoc(bs, PairBlock(p, chapterId, |pairs| + 1), LineSeparator);
  }

  /** Every pair has its block in the CSS: the block of pair k (counting from
      1) occurs in the output. */
  lemma EveryBlockInCss(pairs: seq<Pair>, chapterId: string, k: nat)
    requires k < |pairs|
    ensures Contains(GenerateCss(pairs, chapterId), PairBlock(pairs[k], chapterId, k + 1))
  {
    var bs := Blocks(pairs, chapterId);
    JoinContainsEach(bs, LineSeparator, k);
  }

  /** The CSS holds every pair's block: block k of the output (counting from 1)
      is the block for pair k, its texts quoted with every `"` escaped, and
      unescaping them gives the pair back. */
  lemma PairBlockEscaped(p: Pair, chapterId: string, index: nat)
    ensures var o := EscapeCharacter(p.original, '"');
            var t := EscapeCharacter(p.translated, '"');
            && PairBlock(p, chapterId, index) == CssBlock(ClassName(chapterId, index), o, t)
            && AllEscaped(o, '"') && AllEscaped(t, '"')
            && Unescape(o, '"') == p.original && Unescape(t, '"') == p.translated
            && |o| == |p.original| + Count(p.original, '"')
            && |t| == |p.translated| + Count(p.translated, '"')
  {
    EveryOccurrenceEscaped(p.original, '"');
    EveryOccurrenceEscaped(p.translated, '"');
    EscapeRoundTrip(p.original, '"');
    EscapeRoundTrip(p.translated, '"');
    EscapeLength(p.original, '"');
    EscapeLength(p.translated, '"');
  }

  /** The k-th anchor in the HTML and the k-th CSS block use the same class,
      `ch{chapter_id}text{k}`, and no other anchor or block uses it. */
  lemma ClassesAgree(html: string, chapterId: string, k: nat)
    requires k < |ReplaceAndExtract(html, chapterId).1|
    ensures var ms := Scan(html, 0);
            var pairs := ReplaceAndExtract(html, chapterId).1;
            && k < |ms|
            && Anchors(ms, chapterId, 1)[k] == Anchor(ClassName(chapterId, k + 1), pairs[k].original)
            && Blocks(pairs, chapterId)[k] == PairBlock(pairs[k], chapterId, k + 1)
    ensures forall j: nat :: j != k + 1 ==> ClassName(chapterId, j) != ClassName(chapterId, k + 1)
  {
    forall j: nat | j != k + 1
      ensures ClassName(chapterId, j) != ClassName(chapterId, k + 1)
    {
      if ClassName(chapterId, j) == ClassName(chapterId, k + 1) {
        ClassNameInjective(chapterId, j, k + 1);
      }
    }
  }

  /** `generate_translations(html, chapter_id)`. */
  function GenerateTranslations(html: string, chapterId: string): (r: (string, string))
    ensures r.0 == ReplaceAndExtract(html, chapterId).0
    ensures r.1 == GenerateCss(ReplaceAndExtract(html, chapterId).1, chapterId)
  {
    var (newHtml, pairs) := ReplaceAndExtract(html, chapterId);
    (newHtml, GenerateCss(pairs, chapterId))
  }

  /** `generate_translations_from_file(file, chapter_id)`, given what reading
      and decoding the file gave. */
  function GenerateTranslationsFromFile(decoded: Decoded, chapterId: string): (r: Result<(string, string), string>)
    ensures decoded.None? ==> r == Failure(UnreadableFileMessage)
    ensures decoded.Some? ==> r == Success(GenerateTranslations(decoded.value, chapterId))
  {
    match ReadUploadedHtmlFile(decoded)
    case Failure(e) => Failure(e)
    case Success(html) => Success(GenerateTranslations(html, chapterId))
  }
}
