/** The shared backend validators: the non-empty-HTML field check and the
    reading of an uploaded file. */
module BackendCommons {
  import opened Wrappers
  import opened Text

  const EmptyHtmlMessage: string := "HTML content cannot be empty."

  const UnreadableFileMessage: string :=
    "Unable to read the uploaded file. Please check that it's a valid HTML file."

  /** `not_empty_html`: `None` when the value passes, otherwise the message of
      the `ValidationError` it raises. */
  function NotEmptyHtml(value: string): (r: Option<string>)
    ensures r.Some? <==> AllSpace(value)
    ensures r.Some? ==> r.value == EmptyHtmlMessage
    ensures value == [] ==> r.Some?
  {
    if Strip(value) == [] then Some(EmptyHtmlMessage) else None
  }

  /** What reading and UTF-8 decoding the uploaded stream gave: the text, or
      `None` when either step raised. */
  type Decoded = Option<string>

  /** `read_uploaded_html_file`: any failure to read or decode becomes
      `InvalidHTMLFile` with one fixed message; otherwise the decoded text is
      returned untouched. */
  function ReadUploadedHtmlFile(decoded: Decoded): (r: Result<string, string>)
    ensures r.Success? <==> decoded.Some?
    ensures r.Success? ==> r.value == decoded.value
    ensures r.Failure? ==> r.error == UnreadableFileMessage
  {
    match decoded
    case None => Failure(UnreadableFileMessage)
    case Some(html) => Success(html)
  }
}
