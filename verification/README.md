# unofficial-ao3-tools in Dafny

A Dafny model of the text-transformation core of unofficial-ao3-tools, with proofs about it. The core has four parts:

- **The hover-translation generator.** Markers `{original [translated]}` in a chapter's HTML become numbered anchors. Each anchor has a CSS block that shows the translation on hover or focus. The backend service and the older command-line copy in `tools/` are both modelled.
- **The Google-Docs HTML cleaner.** It has six passes over a parsed document: paragraph alignment, spans to semantic tags, merging of neighbouring semantic tags, span consolidation, newline stripping and the filling of blank paragraphs. The model also covers the `c<digits>` class tests and the Google-Docs detector. The document is an abstract tree of text nodes and elements. The class-to-alignment and class-to-style maps are inputs.
- **The validators.** These are the backend's marshmallow schemas with the shared `not_empty_html` check, and the frontend's Yup form schemas. Each one is a function from the submitted values to the loaded data or to the messages per field.
- **The two pages' submit handlers.** One click maps the page state and the way the request ended to the new page state. That state holds the alerts, the message and the result fields. The request is a function parameter: `Ok`, an HTTP error with a status and the body's `error`, a local `Error`, or anything else. The model also has the hover page's download file names.

Modules, one per file:

- `Wrappers`, `Text`: Option/Result, and the string operations of the source languages.
- `Escape`, `TranslationPattern`, `Templates`, `HoverService`, `HoverTools`: the generator.
- `HtmlTree`, `GdocUtils`, `ParagraphAlignment`, `SemanticTags`, `MergeTags`, `ConsolidateSpans`, `ParagraphText`, `CleanerPipeline`: the cleaner.
- `BackendCommons`, `BackendSchemas`, `FormSchemas`: the validators.
- `PageOutcome`, `CleanerPage`, `HoverPage`: the pages.

How the marker pattern `\{(.*?)\s\[(.+?)\]\}` is modelled:

- It is a specified matcher.
- A marker is `{`, an original without a newline, one whitespace character, `[`, a non-empty translation without a newline, and `]}`.
- At a given start, the lazy groups choose the least (original length, translated length) in lexicographic order.
- `re.sub` replaces the leftmost non-overlapping markers from left to right.
- The character-by-character walk that does the replacement (`HoverService.Sub`) is proved equal to that specification (`HoverService.SubIsScan`).

The hover page and the backend disagree on the chapter field's name:

- The page sends the chapter under `chapterId` (frontend/src/pages/HoverTranslationPage.tsx:73,87).
- Both backend schemas declare `chapter` (backend/app/hover_translation/schemas.py:8,13) and refuse undeclared keys.
- So every request the page can build is refused, with `chapter` missing and `chapterId` unknown. This is proved by `HoverPage.RequestsMissTheChapterField` and `BackendSchemas.ChapterIdKeyRejected`.
- The model keeps each file as written. The controller also reads `chapter_id` from the loaded data (backend/app/hover_translation/controller.py:21,40). The controller is not part of this model.

One place where the documented behaviour and the code differ:

- The cleaner page's "no file" error is a plain `Error`.
- Its `catch` block shows the generic message for every non-axios error (frontend/src/pages/GoogleDocsHtmlCleanerPage.tsx:66-69,109-110). So that page never shows the "No file selected" text.
- The model follows the code: `CleanerPage.NoFileShowsGenericMessage`.
- The hover page does show that text (`HoverPage.NoFileShowsItsMessage`).

## Model

| member | source | states |
|---|---|---|
| Escape.EscapeRoundTrip | backend/app/hover_translation/utils.py:16-17 | Removing the backslash before each escaped character gives the text back, so no character other than the chosen one is touched and the order is kept. |
| Escape.EscapeLength | backend/app/hover_translation/utils.py:16-17 | The escaped text is longer by exactly the number of occurrences of the character. |
| Escape.EveryOccurrenceEscaped | backend/app/hover_translation/utils.py:16-17 | In the output, every occurrence of the character is preceded by a backslash. |
| Escape.OnlyTheCharacterIsEscaped | backend/app/hover_translation/utils.py:17 | A text without the character comes back unchanged. |
| Escape.EscapeConcat | backend/app/hover_translation/utils.py:17 | Escaping works piece by piece: escaping a concatenation is concatenating the escaped pieces. |
| Escape.EscapeQuoted | backend/app/hover_translation/utils.py:16-17 | A quoted text without inner quotes gets a backslash before each of its two quotes and nothing else. |
| Escape.DocumentedExample | backend/app/hover_translation/utils.py:12-14 | The docstring example: `He said "hello"` escapes to `He said \"hello\"`. |
| TranslationPattern.FirstTranslated | backend/app/hover_translation/constants.py:3 | For a fixed original length, the result is the shortest translation that completes a marker, or none when no translation does. |
| TranslationPattern.FirstLengths | backend/app/hover_translation/constants.py:3 | The lexicographically least (original, translated) length pair that forms a marker: the lazy groups' choice. |
| TranslationPattern.MatchAt | backend/app/hover_translation/constants.py:3 | A match at a position is a well-formed marker starting there: brace, newline-free original, one whitespace, bracket, non-empty newline-free translation, `]}`. |
| TranslationPattern.MatchAtIsLeast | backend/app/hover_translation/constants.py:3 | The match takes the least (original, translated) length pair among all markers starting there, as the lazy groups do; none means no marker starts there. |
| TranslationPattern.MatchOpensWithBrace | backend/app/hover_translation/constants.py:3 | Every marker starts at a `{`. |
| TranslationPattern.Scan | backend/app/hover_translation/service.py:77 | The markers found form a leftmost, non-overlapping tiling of the text. |
| TranslationPattern.ScanUnique | backend/app/hover_translation/service.py:77 | Any leftmost non-overlapping tiling equals the scan, so the scan is exactly the specification of the search. |
| TranslationPattern.ScanSkips | backend/app/hover_translation/service.py:77 | A stretch where no marker starts does not change what the search finds. |
| TranslationPattern.TilingExtend | backend/app/hover_translation/service.py:77 | A leftmost tiling from a later position is also one from an earlier position when no marker starts in between. |
| TranslationPattern.TilingsAgree | backend/app/hover_translation/service.py:77 | Two leftmost non-overlapping tilings from the same position are equal. |
| TranslationPattern.NoBraceNoMarker | backend/app/hover_translation/constants.py:3 | Text without `{` holds no marker. |
| Templates.ClassNameInjective | backend/app/hover_translation/constants.py:5 | Within one chapter, different indices give different `ch{chapter}text{index}` class names. |
| Templates.AnchorShowsOriginal | backend/app/hover_translation/constants.py:7-11 | The anchor snippet's visible text (everything outside tags) is exactly the original, when neither the class nor the original contains angle brackets. |
| Templates.InvisibleAround | backend/app/hover_translation/constants.py:7-11 | Plain text between pieces of markup that show nothing is all that is shown. |
| HoverService.SubIsScan | backend/app/hover_translation/service.py:67-79 | The walk of `re.sub` with the replacement callback: it copies the text outside the markers unchanged, replaces the k-th marker by the anchor numbered k, and collects the markers' pairs in order. |
| HoverService.ReplaceAndExtract | backend/app/hover_translation/service.py:52-79 | The pair list is one pair per leftmost non-overlapping marker, in order. The HTML is the gaps between markers, unchanged, interleaved with the anchors `ch{chapter_id}text{k}` of each marker's original, for k from 1. |
| HoverService.ReplaceWithoutMarkers | backend/app/hover_translation/service.py:77-79 | With no marker, the HTML comes back as it was and the pair list is empty. |
| HoverService.GenerateCss | backend/app/hover_translation/service.py:82-105 | The CSS is empty exactly when there are no pairs; one pair gives exactly its block. |
| HoverService.GenerateCssAppend | backend/app/hover_translation/service.py:93-105 | One more pair adds one line separator and that pair's block, numbered by its position, to the end: one block per pair, in pair order. |
| HoverService.EveryBlockInCss | backend/app/hover_translation/service.py:95-105 | The block of pair k (its class numbered k) occurs in the CSS for every pair. |
| HoverService.PairBlockEscaped | backend/app/hover_translation/service.py:95-101 | Each block carries both texts with every `"` escaped and nothing else changed: unescaping gives the pair back, and each length grows by the quote count. |
| HoverService.ClassesAgree | backend/app/hover_translation/service.py:69-103 | The k-th anchor in the HTML and the k-th CSS block use the same class `ch{chapter_id}text{k}`, and no other index shares it. |
| HoverService.GenerateTranslations | backend/app/hover_translation/service.py:35-49 | The result is the rewritten HTML and the CSS of the pairs extracted from that same rewrite. |
| HoverService.GenerateTranslationsFromFile | backend/app/hover_translation/service.py:14-32 | An unreadable upload fails with the fixed message; a readable one gives the translations of its text. |
| HoverTools.ToolsReplaceAndExtract | tools/hover_translation/generator.py:25-52 | Assuming the tools constants equal the backend's (see Left out), the pairs are those of the leftmost markers in order, and the HTML is the gaps interleaved with the anchors numbered from 1, with the class built from `str(chapter)`. |
| HoverTools.BlockLoop | tools/hover_translation/generator.py:68-74 | After the loop, `css_block` holds the last pair's block, or stays unbound when there are no pairs. |
| HoverTools.ToolsGenerateCss | tools/hover_translation/generator.py:55-77 | The tools copy as written fails (unbound `css_block`) exactly when there are no pairs; otherwise its output is only the last pair's block. |
| HoverTools.ToolsGenerateTranslations | tools/hover_translation/generator.py:8-22 | The tools copy composes its two steps: it fails with the unbound-variable error exactly when no pair was extracted. Otherwise it returns the replaced HTML and, as CSS, only the block of the last pair, numbered with the pair count. |
| HoverTools.ToolsCssIsLastMarker | tools/hover_translation/generator.py:8-22 | In terms of the markers found: the tools copy fails exactly when the HTML has no marker, and otherwise its CSS is the block of the last marker alone. |
| HoverTools.ToolsCssDropsBlocks | tools/hover_translation/generator.py:66-77 | With two or more pairs, the tools CSS is strictly shorter than the backend CSS for the same pairs: blocks are lost. |
| HoverTools.ToolsFailsWithoutMarkers | tools/hover_translation/generator.py:8-22 | On a page without markers the tools copy raises, while the backend returns the HTML unchanged with empty CSS. |
| HoverTools.ToolsCssAgreesOnOnePair | tools/hover_translation/generator.py:55-77 | On exactly one pair the two copies give the same CSS. |
| BackendCommons.NotEmptyHtml | backend/app/commons/utils.py:6-8 | The value is refused, with "HTML content cannot be empty.", exactly when it is whitespace only; the empty string is refused. |
| BackendCommons.ReadUploadedHtmlFile | backend/app/commons/utils.py:11-19 | A read or decode failure always becomes the fixed "Unable to read the uploaded file..." error; otherwise the decoded text is returned untouched. |
| BackendSchemas.ParseIntRoundTrip | backend/app/hover_translation/schemas.py:8 | The integer field reads back every printed integer: parsing `str(i)` gives `i`. |
| BackendSchemas.DeserializeInteger | backend/app/hover_translation/schemas.py:8 | Numbers load as themselves; booleans, null, files and other values are not integers. |
| BackendSchemas.LoadHtmlField | backend/app/hover_translation/schemas.py:7 | `html` loads exactly when it is present, a string, and not blank. Absent gives the required message, null the null message, and a blank string the empty-HTML message. |
| BackendSchemas.LoadChapterField | backend/app/hover_translation/schemas.py:8 | `chapter` loads exactly when it deserializes to an integer of at least 1. Absent gives the required message, a number below 1 gives "Chapter must be a positive integer.", and a boolean is not an integer. |
| BackendSchemas.LoadFileField | backend/app/hover_translation/schemas.py:12 | `file` loads any non-null value as it is; absent gives the required message. |
| BackendSchemas.LoadHoverTranslation | backend/app/hover_translation/schemas.py:6-8 | The text schema accepts exactly the inputs with only `html` and `chapter`, a non-blank `html` string and a chapter of at least 1. On failure every undeclared key is reported as unknown, each failed field carries its own message, and no other key appears. |
| BackendSchemas.LoadHoverTranslationFile | backend/app/hover_translation/schemas.py:11-13 | The file schema accepts exactly the inputs with only `file` and `chapter`, a non-null file and a chapter of at least 1. On failure every undeclared key is reported as unknown, each failed field carries its own message, and no other key appears. |
| BackendSchemas.LoadCleanHtml | backend/app/gdoc_html_cleaner/schemas.py:5-6 | The cleaner's text schema accepts exactly an input whose only key is a non-blank `html` string. On failure every other key is reported as unknown, a failed `html` carries its message, and no other key appears. |
| BackendSchemas.LoadCleanHtmlFile | backend/app/gdoc_html_cleaner/schemas.py:9-10 | The cleaner's file schema accepts exactly an input whose only key is a non-null `file`, with no constraint on its name or content. On failure every other key is reported as unknown, a failed `file` carries its message, and no other key appears. |
| BackendSchemas.NonPositiveChapterRejected | backend/app/hover_translation/schemas.py:6-13 | A chapter of 0 or less is refused by both hover schemas with the positive-integer message, whatever the other fields are. |
| BackendSchemas.BlankHtmlRejected | backend/app/commons/utils.py:6-8 | A blank `html` is refused with the shared empty-HTML message by both text schemas. |
| BackendSchemas.AnyUploadAccepted | backend/app/hover_translation/schemas.py:11-13 | Both file schemas accept an upload whatever its content, readable or not. |
| BackendSchemas.ChapterIdKeyRejected | backend/app/hover_translation/schemas.py:6-8 | Sending the chapter as `chapterId` gives an unknown-field error for `chapterId` and a missing-field error for `chapter`. |
| GdocUtils.IsCClassSelector | tools/gdoc_html_cleaner/utils.py:4-14 | True exactly for `.c` followed by one or more ASCII digits. |
| GdocUtils.IsCClassName | tools/gdoc_html_cleaner/utils.py:17-27 | True exactly for `c` followed by one or more ASCII digits. |
| GdocUtils.SelectorNamesClass | tools/gdoc_html_cleaner/utils.py:14-27 | For every name, `is_c_class_selector("." + name) == is_c_class_name(name)`. |
| GdocUtils.BarePrefixRejected | tools/gdoc_html_cleaner/utils.py:14-27 | `c` and `.c` alone are rejected, because `isdigit` is false on the empty string. |
| GdocUtils.FindFirst | tools/gdoc_html_cleaner/utils.py:45 | The result is the first element with the name in document order, or none when no element has it. |
| GdocUtils.AnyCClass | tools/gdoc_html_cleaner/utils.py:49-52 | True exactly when some element carries a c-class. |
| GdocUtils.IsGdocHtml | tools/gdoc_html_cleaner/utils.py:30-54 | True exactly when the first `body` has the class `doc-content` and some element anywhere carries a c-class. |
| ParagraphAlignment.FirstAlignment | tools/gdoc_html_cleaner/cleaner.py:141-146 | The alignment of the first class, in order, whose mapped alignment is set and non-empty; none when no class has one. |
| ParagraphAlignment.RemoveCClasses | tools/gdoc_html_cleaner/cleaner.py:151 | The kept classes are exactly the classes that are not c-classes; a list without c-classes is unchanged. |
| ParagraphAlignment.RemoveCClassesAppend | tools/gdoc_html_cleaner/cleaner.py:151 | The filter keeps the classes in their order, because it works class by class. |
| ParagraphAlignment.AlignParagraph | tools/gdoc_html_cleaner/cleaner.py:139-156 | A paragraph gets `align` from its first aligned class (and keeps its attributes otherwise), loses its c-classes, and keeps its children. |
| ParagraphAlignment.AlignmentClearsCClasses | tools/gdoc_html_cleaner/cleaner.py:124-158 | After the pass no paragraph anywhere carries a c-class, and the document's text is unchanged. |
| SemanticTags.CollectTags | tools/gdoc_html_cleaner/cleaner.py:223-244 | "strong" is collected iff some class has font-weight "700" or "bold", "em" iff font-style "italic", "u" iff the text-decoration contains "underline", and "s" iff it contains "line-through". |
| SemanticTags.TagsInOrder | tools/gdoc_html_cleaner/cleaner.py:246 | The collected tags in the fixed order strong, em, u, s. |
| SemanticTags.MapClassesToSemanticTags | tools/gdoc_html_cleaner/cleaner.py:204-246 | The tags form a duplicate-free subsequence of strong, em, u, s, and each is present exactly when its style rule fires for some class. |
| SemanticTags.OrderedHasNoDuplicates | tools/gdoc_html_cleaner/cleaner.py:246 | Such a sequence has no repeated tag and at most four. |
| SemanticTags.Wrap | tools/gdoc_html_cleaner/cleaner.py:186-197 | The nest has the first tag outermost and no class; with no tags the children are unchanged. |
| SemanticTags.WrapPeel | tools/gdoc_html_cleaner/cleaner.py:186-199 | Reading the nest from the outside in gives the tags in order and then the span's own contents: nothing is lost. |
| SemanticTags.ReplaceSpans | tools/gdoc_html_cleaner/cleaner.py:174-201 | A styled span becomes the nest of its tags around its contents; text nodes are kept. |
| SemanticTags.UnstyledSpanKept | tools/gdoc_html_cleaner/cleaner.py:177-183 | A span without classes, or whose classes map to no tag, stays a span with the same classes and attributes. |
| SemanticTags.ReplaceSpansKeepsText | tools/gdoc_html_cleaner/cleaner.py:174-201 | The pass changes markup only: the text is the same. |
| MergeTags.Absorb | tools/gdoc_html_cleaner/cleaner.py:274-277 | The first element keeps its name, classes and attributes and gets the second one's contents after its own. |
| MergeTags.MergeRuns | tools/gdoc_html_cleaner/cleaner.py:261-281 | Afterwards no two neighbouring children are both the tag. There are no more children than before, the text is the same, and the first child keeps its head. The exact output is given by `MergeRunsIsRegroup`. |
| MergeTags.MergeRunsKeepsContents | tools/gdoc_html_cleaner/cleaner.py:273-279 | Opening every tag element before and after the merge gives the same nodes in the same order: merging moves contents between tag elements and nothing else. |
| MergeTags.MergeRunsIsRegroup | tools/gdoc_html_cleaner/cleaner.py:261-281 | For every input the loop's result equals `Regroup`: each maximal run of neighbouring tag elements becomes its first element (same name, classes and attributes) holding the contents of the whole run in order, and every other child stays in place. |
| MergeTags.MergeRunsIdentity | tools/gdoc_html_cleaner/cleaner.py:263-281 | Children without neighbouring tag elements are left as they are. |
| MergeTags.MergeRunsIdempotent | tools/gdoc_html_cleaner/cleaner.py:261-281 | Merging twice is merging once. |
| MergeTags.MergeTag | tools/gdoc_html_cleaner/cleaner.py:249-283 | The pass over a tree keeps each node's head and the document's text. |
| MergeTags.MergeTagSeparatesRuns | tools/gdoc_html_cleaner/cleaner.py:260-283 | After the pass no paragraph anywhere has two neighbouring children that are both the tag. |
| MergeTags.MergeSemanticTags | tools/gdoc_html_cleaner/cleaner.py:286-304 | One merge pass per semantic tag, in order, keeping the head and the text. |
| ConsolidateSpans.ConsolidateChildren | tools/gdoc_html_cleaner/cleaner.py:317-339 | A consolidated paragraph has no span child. |
| ConsolidateSpans.ConsolidateIsRegroup | tools/gdoc_html_cleaner/cleaner.py:317-339 | The loop equals an independent regrouping. The children are cut at each non-span element; each group gives its text nodes, then (when it had spans) the joined text of its spans, then the element that ends it. |
| ConsolidateSpans.PendingTextMovesAfterText | tools/gdoc_html_cleaner/cleaner.py:321-335 | The joined span text lands after the plain text that followed the spans: `<p><span>a</span>b</p>` gives the text nodes "b", then "a". |
| ConsolidateSpans.NoSpanNothingMoves | tools/gdoc_html_cleaner/cleaner.py:321-331 | A paragraph without span children keeps its children in place. |
| ConsolidateSpans.ConsolidateRemovesSpans | tools/gdoc_html_cleaner/cleaner.py:307-341 | After the pass no paragraph anywhere has a span child. |
| ParagraphText.StripNewlines | tools/gdoc_html_cleaner/cleaner.py:354-366 | The pass keeps every node's head and each element's child count. |
| ParagraphText.StripRemovesExactlyNewlines | tools/gdoc_html_cleaner/cleaner.py:354-366 | Inside a paragraph, the text afterwards is the text before with every newline removed and every other character kept in order. |
| ParagraphText.StripOutsideParagraphs | tools/gdoc_html_cleaner/cleaner.py:356-365 | A tree without paragraphs is untouched. |
| ParagraphText.StripClearsParagraphs | tools/gdoc_html_cleaner/cleaner.py:344-367 | After the pass no text node under any paragraph contains a newline. |
| ParagraphText.StripIdempotent | tools/gdoc_html_cleaner/cleaner.py:354-366 | Stripping twice is stripping once. |
| ParagraphText.EnsureNonempty | tools/gdoc_html_cleaner/cleaner.py:380-389 | A paragraph that is empty or holds only blank text ends up holding exactly one no-break space; every node keeps its head. |
| ParagraphText.EnsureNonemptyFills | tools/gdoc_html_cleaner/cleaner.py:370-389 | Afterwards every paragraph has contents, and contents that are all blank text are exactly the single no-break space. |
| ParagraphText.EnsureNonemptyIdempotent | tools/gdoc_html_cleaner/cleaner.py:380-389 | Filling twice is filling once. |
| ParagraphText.NoBlankParagraphUntouched | tools/gdoc_html_cleaner/cleaner.py:380-387 | A tree without blank paragraphs is left as it is. |
| CleanerPipeline.ApplyTransformations | tools/gdoc_html_cleaner/cleaner.py:85-121 | The six passes run in their fixed order over the whole document, which keeps its number of top-level nodes. |
| CleanerPipeline.CleanedParagraphsAreClean | tools/gdoc_html_cleaner/cleaner.py:109-121 | In the cleaned document every paragraph has no c-class, no span child, no newline in its text, and some content. Each later pass keeps what the earlier ones established. |
| FormSchemas.ChapterIdErrors | frontend/src/features/HoverTranslation/schema/EditorFormSchema.ts:4-7 | The chapter id passes exactly when it is 1 to 12 ASCII letters or digits. Missing gives "Chapter ID is required" only, and empty gives that and the alphanumeric message. A non-alphanumeric id gives the alphanumeric message, and more than 12 characters the length message. |
| FormSchemas.HtmlErrors | frontend/src/features/HoverTranslation/schema/EditorFormSchema.ts:8-10 | `html` passes exactly when it has a non-whitespace character. Missing or empty gives "HTML is required", and blank gives "HTML cannot be empty". |
| FormSchemas.FilesErrors | frontend/src/features/HoverTranslation/schema/UploadFormSchema.ts:8-18 | The files pass exactly when there is one file whose name ends in ".html". No file gives "File is required", more than one "Only one file is allowed", and a non-HTML name "Only HTML files are allowed". |
| FormSchemas.ValidateHoverEditorForm | frontend/src/features/HoverTranslation/schema/EditorFormSchema.ts:3-11 | Accepted exactly when the chapter id is valid and `html` is not blank; errors name only these two fields. |
| FormSchemas.ValidateHoverUploadForm | frontend/src/features/HoverTranslation/schema/UploadFormSchema.ts:3-19 | Accepted exactly when the chapter id is valid and there is exactly one ".html" file. |
| FormSchemas.ValidateCleanerEditorForm | frontend/src/features/HtmlCleaner/schema/EditorFormSchema.ts:3-7 | Accepted exactly when `html` is not blank; no other field is looked at. |
| FormSchemas.ValidateCleanerUploadForm | frontend/src/features/HtmlCleaner/schema/UploadFormSchema.ts:3-15 | Accepted exactly when there is exactly one file and its name ends in ".html". |
| FormSchemas.UploadErrors | frontend/src/features/HoverTranslation/schema/HoverTranslationSchema.ts:16-23 | In upload mode the file passes exactly when it is present and named ".html"; missing gives "Please upload a file". |
| FormSchemas.ValidateHoverTranslationForm | frontend/src/features/HoverTranslation/schema/HoverTranslationSchema.ts:3-27 | The chapter id is checked in both modes and `mode` is required. `html` is checked only in editor mode and `file` only in upload mode. The inactive field is stripped from the output and never reported. |
| FormSchemas.InactiveFieldIgnored | frontend/src/features/HoverTranslation/schema/HoverTranslationSchema.ts:8-25 | Changing the inactive mode's field never changes the outcome. |
| FormSchemas.ModesAgreeWithForms | frontend/src/features/HoverTranslation/schema/HoverTranslationSchema.ts:3-27 | In editor mode the mode-switched schema accepts exactly what the editor form accepts, and in upload mode exactly what the upload form accepts for that one file. |
| CleanerPage.PlanRequest | frontend/src/pages/GoogleDocsHtmlCleanerPage.tsx:53-82 | The editor tab sends the editor's text. Any other tab sends the chosen file, or throws "No file selected..." before any request when there is none. |
| CleanerPage.ErrorMessage | frontend/src/pages/GoogleDocsHtmlCleanerPage.tsx:99-111 | A 400 shows the server's `error` verbatim; every other failure, the local no-file error included, shows the generic message. |
| CleanerPage.Settle | frontend/src/pages/GoogleDocsHtmlCleanerPage.tsx:97-114 | Exactly one alert ends open, the success alert exactly on success. Success sets the cleaned HTML; a failure keeps the previous one. |
| CleanerPage.HandleClean | frontend/src/pages/GoogleDocsHtmlCleanerPage.tsx:85-115 | Every click ends with exactly one alert open. |
| CleanerPage.ClickResetsThenSettles | frontend/src/pages/GoogleDocsHtmlCleanerPage.tsx:47-51 | A click starts from closed alerts and no message, and a success leaves no message. |
| CleanerPage.NoFileShowsGenericMessage | frontend/src/pages/GoogleDocsHtmlCleanerPage.tsx:66-69 | The upload tab without a file shows the generic message, not the thrown text, and keeps the cleaned HTML. |
| CleanerPage.TabChoosesRequest | frontend/src/pages/GoogleDocsHtmlCleanerPage.tsx:91-95 | The tab decides which request is sent. |
| CleanerPage.BadRequestShowsServerError | frontend/src/pages/GoogleDocsHtmlCleanerPage.tsx:100-105 | A 400 shows the server's message and keeps the previous result. |
| HoverPage.PlanRequest | frontend/src/pages/HoverTranslationPage.tsx:66-98 | The editor tab sends `html` and `chapterId`, and the upload tab sends `file` and `chapterId`. With no file it throws "No file selected..." before any request. |
| HoverPage.ErrorMessage | frontend/src/pages/HoverTranslationPage.tsx:118-134 | A 400 shows the server's `error`; any other axios error shows the generic message; any other thrown `Error`, the page's no-file error or a `TypeError` from reading the response among them, shows its own message; a thrown value that is not an `Error` shows the generic message. |
| HoverPage.Begin | frontend/src/pages/HoverTranslationPage.tsx:55-64 | A click closes both alerts, clears the message and empties both results, and changes nothing else. |
| HoverPage.Settle | frontend/src/pages/HoverTranslationPage.tsx:113-137 | Exactly one alert ends open, the success alert exactly on success. Success sets both results from the response; a failure leaves them as they were. |
| HoverPage.HandleGenerate | frontend/src/pages/HoverTranslationPage.tsx:100-138 | Every click ends with exactly one alert open, and after a failure both results are empty. |
| HoverPage.NoFileShowsItsMessage | frontend/src/pages/HoverTranslationPage.tsx:80-82 | The upload tab without a file shows "No file selected..." verbatim and leaves both results empty. |
| HoverPage.SuccessFillsResults | frontend/src/pages/HoverTranslationPage.tsx:113-117 | A successful response fills both results and opens only the success alert. |
| HoverPage.RequestsMissTheChapterField | frontend/src/pages/HoverTranslationPage.tsx:73-87 | Every request the page sends is refused by its route's schema, with `chapter` missing and `chapterId` unknown. |
| HoverPage.HtmlDownloadName | frontend/src/pages/HoverTranslationPage.tsx:287 | The HTML download is named `hover_translation_` + id + `.html`, which the upload form would accept as an HTML file name. |
| HoverPage.CssDownloadName | frontend/src/pages/HoverTranslationPage.tsx:318 | The CSS download is named `hover_translation_` + id + `.css`. |
| HoverPage.DownloadNamesIdentifyChapter | frontend/src/pages/HoverTranslationPage.tsx:287-318 | The chapter id can be read back from either name, and a chapter's two names differ. |

## Left out

- BeautifulSoup parsing and serialisation, `clean`, `get_cleaned_body_html` and `html.unescape`: foreign library code. The document is an abstract tree, and the class list `[]` stands for an absent `class` attribute.
- `extract_styles` and cssutils: CSS parsing in a foreign library. The class-to-alignment and class-to-style maps are inputs.
- `replace_spans_with_semantic_tags` re-parses the span's contents. It is taken as the identity on the span's children, and spans nested inside a replaced span are copied as they are.
- `SEMANTIC_TAGS` is defined in tools/gdoc_html_cleaner/constants.py, which is not part of this model. It is a parameter of `MergeTags.MergeSemanticTags`.
- The tools copy's `CLASS_TEMPLATE` is defined in tools/hover_translation/constants.py, which is not part of this model. It is taken to be `ch{chapter}text{index}`, the form the same file's `generate_css` writes out.
- The tools copy's `ANCHOR_TEMPLATE`, `CSS_TEMPLATE` and `TRANSLATION_PATTERN` come from the same tools/hover_translation/constants.py. They are taken to equal the backend's constants: the tools copy reuses `TranslationPattern.Scan`, `Templates.Anchor` and `HoverService.PairBlock`. `HoverTools.ToolsCssDropsBlocks`, `HoverTools.ToolsCssAgreesOnOnePair` and `HoverTools.ToolsFailsWithoutMarkers` hold under that assumption.
- The tools copy's `utils.escape_character` is defined in tools/hover_translation/utils.py, which is not part of this model. It is taken to be the backend's `escape_character`, modelled by `Escape.EscapeCharacter`.
- Escape.Unescape: only the inserted backslashes are undone. A CSS parser also reads a backslash before any other character as an escape. `escape_character` is only applied to `"` (backend/app/hover_translation/service.py:99-100), so a backslash in a pair reaches the CSS as it is. An original ending in `\` then escapes the closing quote of its `content` string. `Escape.EscapeRoundTrip` and `HoverService.PairBlockEscaped` therefore say nothing about what a browser shows for such a pair.
- Unicode character classes. Whitespace is the six ASCII spaces and U+00A0, and digits are ASCII `0`-`9`. `os.linesep` is fixed to "\n".
- `int()`: underscores in digit strings, non-ASCII digits and float inputs to `fields.Integer` are not modelled.
- Marshmallow and Yup error aggregation order and message paths. Each field carries its failed messages. The Yup array element messages are merged into the `files` entry. The controllers' "first error" pick is not modelled.
- Flask controllers, the app factory and the exception classes: HTTP plumbing.
- axios, `FormData`, clipboard, Blob and URL APIs: network and browser I/O. A request's end is a parameter of the handlers.
- A 400 response without an `error` field is not modelled: the message is always a string.
- React, MUI and Monaco components, and the form components: UI wiring.
- The tkinter command-line programs: interactive I/O.
- Escape.EscapeCharacter: its own contract is weak. What it computes is stated by the lemmas `EscapeRoundTrip`, `EscapeLength`, `EveryOccurrenceEscaped` and `EscapeConcat`.

## Findings

| source | as written | input that shows it | evidently intended | confidence | as-written member | corrected member |
|---|---|---|---|---|---|---|
| tools/hover_translation/generator.py:76 | `css_blocks.append(css_block)` sits after the `for` loop, so only the last pair's block is kept, and an empty pair list raises `UnboundLocalError` | two pairs: the CSS holds only the block for pair 2; no pairs: `generate_css([], 1)` raises | one block per pair, joined by the line separator, and "" for no pairs, as in backend/app/hover_translation/service.py:103-105 | not executed | HoverTools.ToolsGenerateCss (with HoverTools.ToolsCssDropsBlocks) | HoverService.GenerateCss (with HoverService.EveryBlockInCss, HoverService.GenerateCssAppend) |
