/**
 * The hover-translation page: what one click on "Generate" does to the page
 * state, given how the request ends, and the names of the two downloads.
 */
module HoverPage {
  import opened Wrappers
  import opened Text
  import opened PageOutcome
  import BackendSchemas
  import BackendCommons
  import FormSchemas

  /** A file chosen in the upload tab: its name and what decoding it gives. */
  datatype ChosenFile = ChosenFile(name: string, content: BackendCommons.Decoded)

  /** The two requests, each with the fields it sends: JSON `{html, chapterId}`
      to the text route, or form data `file` and `chapterId` to the file route. */
  datatype Request = GenerateFromText(fields: BackendSchemas.Input) | GenerateFromFile(fields: BackendSchemas.Input)

  /** The `html` and `css` of a successful response. */
  datatype Generated = Generated(html: string, css: string)

  datatype PageState = PageState(
    tab: string,
    uploadedFile: Option<ChosenFile>,
    editorContent: string,
    chapterId: string,
    generatedHtml: string,
    generatedCss: string,
    alerts: Alerts)

  const NoFileMessage: string := "No file selected. Please upload a file first."

  /** `handleGenerateFromString` or `handleGenerateFromFile`: the request, or
      the message of the `Error` thrown before any request. */
  function PlanRequest(s: PageState): (r: Result<Request, string>)
    ensures s.tab == "editor" ==>
      r == Success(GenerateFromText(map["html" := BackendSchemas.Str(s.editorContent), "chapterId" := BackendSchemas.Str(s.chapterId)]))
    ensures s.tab != "editor" && s.uploadedFile.Some? ==>
      r == Success(GenerateFromFile(map["file" := BackendSchemas.Upload(s.uploadedFile.value.content), "chapterId" := BackendSchemas.Str(s.chapterId)]))
    ensures s.tab != "editor" && s.uploadedFile.None? ==> r == Failure(NoFileMessage)
  {
    if s.tab == "editor" then
      Success(GenerateFromText(map["html" := BackendSchemas.Str(s.editorContent), "chapterId" := BackendSchemas.Str(s.chapterId)]))
    else match s.uploadedFile
      case None => Failure(NoFileMessage)
      case Some(f) => Success(GenerateFromFile(map["file" := BackendSchemas.Upload(f.content), "chapterId" := BackendSchemas.Str(s.chapterId)]))
  }

  function Attempt(s: PageState, send: Request -> Outcome<Generated>): Outcome<Generated>
  {
    match PlanRequest(s)
    case Failure(message) => LocalErr(message)
    case Success(request) => send(request)
  }

  /** The `catch` block: a 400 shows the server's `error`, any other axios
      error the generic message, any other `Error` its own message, and a
      thrown value that is not an `Error` the generic message. */
  function ErrorMessage(o: Outcome<Generated>): (m: string)
    requires !o.Ok?
    ensures IsBadRequest(o) ==> m == o.error
    ensures o.LocalErr? ==> m == o.message
    ensures o.Other? || (o.HttpErr? && o.status != Some(400)) ==> m == GenericErrorMessage
  {
    match o
    case HttpErr(status, error) => if status == Some(400) then error else GenericErrorMessage
    case LocalErr(message) => message
    case Other => GenericErrorMessage
  }

  /** `resetAlerts` and `resetResultEditors`. */
  function Begin(s: PageState): (r: PageState)
    ensures r.alerts == Closed && r.generatedHtml == "" && r.generatedCss == ""
    ensures r.tab == s.tab && r.uploadedFile == s.uploadedFile && r.editorContent == s.editorContent && r.chapterId == s.chapterId
  {
    s.(alerts := Closed, generatedHtml := "", generatedCss := "")
  }

  function Settle(s: PageState, o: Outcome<Generated>): (r: PageState)
    ensures Settled(r.alerts)
    ensures o.Ok? <==> r.alerts.successOpen
    ensures o.Ok? ==> r.generatedHtml == o.payload.html && r.generatedCss == o.payload.css && r.alerts.errorMessage == ""
    ensures !o.Ok? ==> r.generatedHtml == s.generatedHtml && r.generatedCss == s.generatedCss
  {
    match o
    case Ok(g) => s.(generatedHtml := g.html, generatedCss := g.css, alerts := Succeeded)
    case _ => s.(alerts := Failed(ErrorMessage(o)))
  }

  /** `handleGenerate`. */
  function HandleGenerate(s: PageState, send: Request -> Outcome<Generated>): (r: PageState)
    ensures Settled(r.alerts)
    ensures r.alerts.errorOpen ==> r.generatedHtml == "" && r.generatedCss == ""
  {
    var begun := Begin(s);
    Settle(begun, Attempt(begun, send))
  }

  /** The upload tab without a file shows the thrown message as it is and
      sends nothing. */
  lemma NoFileShowsItsMessage(s: PageState, send: Request -> Outcome<Generated>)
    requires s.tab != "editor" && s.uploadedFile.None?
    ensures HandleGenerate(s, send).alerts == Failed(NoFileMessage)
    ensures HandleGenerate(s, send).generatedHtml == "" && HandleGenerate(s, send).generatedCss == ""
  {
  }

  /** A successful response fills both results and opens only the success alert. */
  lemma SuccessFillsResults(s: PageState, send: Request -> Outcome<Generated>, g: Generated)
    requires PlanRequest(s).Success? && send(PlanRequest(s).value) == Ok(g)
    ensures HandleGenerate(s, send).generatedHtml == g.html && HandleGenerate(s, send).generatedCss == g.css
    ensures HandleGenerate(s, send).alerts == Succeeded
  {
  }

  /** The page sends the chapter under `chapterId` while both backend schemas
      declare `chapter`: whatever the page holds, the schema of the route it
      calls refuses the request, with `chapter` missing and `chapterId`
      unknown. */
  lemma RequestsMissTheChapterField(s: PageState)
    requires PlanRequest(s).Success?
    ensures var fields := PlanRequest(s).value.fields;
            var loaded := if PlanRequest(s).value.GenerateFromText?
                          then BackendSchemas.LoadHoverTranslation(fields).Failure?
                          else BackendSchemas.LoadHoverTranslationFile(fields).Failure?;
            loaded
    ensures PlanRequest(s).value.GenerateFromText? ==>
              var e := BackendSchemas.LoadHoverTranslation(PlanRequest(s).value.fields).error;
              "chapter" in e && e["chapter"] == BackendSchemas.MissingMessage
              && "chapterId" in e && e["chapterId"] == BackendSchemas.UnknownFieldMessage
    ensures PlanRequest(s).value.GenerateFromFile? ==>
              var e := BackendSchemas.LoadHoverTranslationFile(PlanRequest(s).value.fields).error;
              "chapter" in e && e["chapter"] == BackendSchemas.MissingMessage
              && "chapterId" in e && e["chapterId"] == BackendSchemas.UnknownFieldMessage
  {
  }

  const DownloadPrefix: string := "hover_translation_"

  /** The names the two download buttons give their files. */
  function HtmlDownloadName(chapterId: string): (name: string)
    ensures FormSchemas.IsHtmlFileName(name)
    ensures StartsWith(name, DownloadPrefix)
  {
    DownloadPrefix + chapterId + ".html"
  }

  function CssDownloadName(chapterId: string): (name: string)
    ensures EndsWith(name, ".css")
    ensures StartsWith(name, DownloadPrefix)
  {
    DownloadPrefix + chapterId + ".css"
  }

  /** The chapter id can be read back from either name, so different chapters
      never share a download name, and the two names of a chapter differ. */
  lemma DownloadNamesIdentifyChapter(chapterId: string)
    ensures HtmlDownloadName(chapterId)[|DownloadPrefix|..|HtmlDownloadName(chapterId)| - 5] == chapterId
    ensures CssDownloadName(chapterId)[|DownloadPrefix|..|CssDownloadName(chapterId)| - 4] == chapterId
    ensures HtmlDownloadName(chapterId) != CssDownloadName(chapterId)
  {
    var h := HtmlDownloadName(chapterId);
    assert h[|h| - 1] == 'l';
    assert CssDownloadName(chapterId)[|CssDownloadName(chapterId)| - 1] == 's';
  }
}
