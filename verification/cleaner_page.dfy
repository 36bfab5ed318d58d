/**
 * The Google-Docs cleaner page: what one click on "Clean" does to the page
 * state, given how the request ends. The request itself is a parameter.
 */
module CleanerPage {
  import opened Wrappers
  import opened PageOutcome

  /** A file chosen in the upload tab, known by its name. */
  datatype ChosenFile = ChosenFile(name: string)

  /** The two requests the page can send: the editor's text as JSON, or the
      chosen file as multipart form data. */
  datatype Request = CleanText(html: string) | CleanFile(file: ChosenFile)

  datatype PageState = PageState(
    tab: string,
    uploadedFile: Option<ChosenFile>,
    editorContent: string,
    cleanedHtml: string,
    alerts: Alerts)

  /** The message the page throws when the upload tab has no file. */
  const NoFileMessage: string := "No file selected. Please upload a file first."

  /** The request of `handleCleanHtmlString` or `handleCleanFile`, or the
      message of the `Error` thrown before any request. */
  function PlanRequest(s: PageState): (r: Result<Request, string>)
    ensures s.tab == "editor" ==> r == Success(CleanText(s.editorContent))
    ensures s.tab != "editor" && s.uploadedFile.Some? ==> r == Success(CleanFile(s.uploadedFile.value))
    ensures s.tab != "editor" && s.uploadedFile.None? ==> r == Failure(NoFileMessage)
  {
    if s.tab == "editor" then Success(CleanText(s.editorContent))
    else match s.uploadedFile
      case None => Failure(NoFileMessage)
      case Some(f) => Success(CleanFile(f))
  }

  /** How the attempt ends: the thrown `Error` when there was no request,
      otherwise whatever the request gave. */
  function Attempt(s: PageState, send: Request -> Outcome<string>): Outcome<string>
  {
    match PlanRequest(s)
    case Failure(message) => LocalErr(message)
    case Success(request) => send(request)
  }

  /** The `catch` block: a 400 shows the server's `error` as it is; every other
      failure, any thrown `Error` included, shows the generic message. */
  function ErrorMessage(o: Outcome<string>): (m: string)
    requires !o.Ok?
    ensures IsBadRequest(o) ==> m == o.error
    ensures !IsBadRequest(o) ==> m == GenericErrorMessage
  {
    if o.HttpErr? && o.status == Some(400) then o.error else GenericErrorMessage
  }

  /** The state once the awaited request has ended (the alerts were reset when
      the click began). */
  function Settle(s: PageState, o: Outcome<string>): (r: PageState)
    ensures Settled(r.alerts)
    ensures r.tab == s.tab && r.uploadedFile == s.uploadedFile && r.editorContent == s.editorContent
    ensures o.Ok? <==> r.alerts.successOpen
    ensures o.Ok? ==> r.cleanedHtml == o.payload && r.alerts.errorMessage == ""
    ensures !o.Ok? ==> r.cleanedHtml == s.cleanedHtml
  {
    match o
    case Ok(cleaned) => s.(cleanedHtml := cleaned, alerts := Succeeded)
    case _ => s.(alerts := Failed(ErrorMessage(o)))
  }

  /** `handleClean`: reset the alerts, then settle on how the attempt ends. */
  function HandleClean(s: PageState, send: Request -> Outcome<string>): (r: PageState)
    ensures Settled(r.alerts)
  {
    var begun := s.(alerts := Closed);
    Settle(begun, Attempt(begun, send))
  }

  /** Whatever the previous click left open, a new click starts from closed
      alerts and no message, and ends with exactly one alert open. */
  lemma ClickResetsThenSettles(s: PageState, send: Request -> Outcome<string>)
    ensures s.(alerts := Closed).alerts == Closed
    ensures HandleClean(s, send).alerts.successOpen != HandleClean(s, send).alerts.errorOpen
    ensures HandleClean(s, send).alerts.successOpen ==> HandleClean(s, send).alerts.errorMessage == ""
  {
  }

  /** The upload tab without a file sends nothing and shows the generic
      message, not the text of the thrown `Error`; the cleaned HTML stays. */
  lemma NoFileShowsGenericMessage(s: PageState, send: Request -> Outcome<string>)
    requires s.tab != "editor" && s.uploadedFile.None?
    ensures HandleClean(s, send).alerts == Failed(GenericErrorMessage)
    ensures HandleClean(s, send).cleanedHtml == s.cleanedHtml
  {
  }

  /** The editor tab sends the editor's text; any other tab sends the file. */
  lemma TabChoosesRequest(s: PageState, send: Request -> Outcome<string>)
    ensures s.tab == "editor" ==> HandleClean(s, send) == Settle(s.(alerts := Closed), send(CleanText(s.editorContent)))
    ensures s.tab != "editor" && s.uploadedFile.Some? ==>
              HandleClean(s, send) == Settle(s.(alerts := Closed), send(CleanFile(s.uploadedFile.value)))
  {
  }

  /** A 400 shows the server's message verbatim and keeps the previous result. */
  lemma BadRequestShowsServerError(s: PageState, send: Request -> Outcome<string>, error: string)
    requires s.tab == "editor" && send(CleanText(s.editorContent)) == HttpErr(Some(400), error)
    ensures HandleClean(s, send).alerts == Failed(error)
    ensures HandleClean(s, send).cleanedHtml == s.cleanedHtml
  {
  }
}
