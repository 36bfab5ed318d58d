/**
 * The Yup form schemas of the two pages, as functions from the form values
 * to either the validated values or, per field, the set of messages of the
 * rules the field broke.
 *
 * A field that is `undefined` (`None` here) fails only its `required` rule:
 * Yup stops at the presence check. A present value, the empty string
 * included, is put through every other rule of the field as well.
 */
module FormSchemas {
  import opened Wrappers
  import opened Text

  const ChapterIdRequired: string := "Chapter ID is required"
  const ChapterIdAlphanumeric: string := "Chapter ID must be alphanumeric"
  const ChapterIdTooLong: string := "Chapter ID must be at most 12 characters"
  const HtmlRequired: string := "HTML is required"
  const HtmlEmpty: string := "HTML cannot be empty"
  const FileRequired: string := "File is required"
  const OneFileOnly: string := "Only one file is allowed"
  const HtmlFilesOnly: string := "Only HTML files are allowed"
  const UploadRequired: string := "Please upload a file"
  /** Yup's default message for `required()` without a message, on `files` and `mode`. */
  const FilesRequired: string := "files is a required field"
  const ModeRequired: string := "mode is a required field"

  const MaxChapterIdLength: nat := 12

  /** A form value; `None` is `undefined`. */
  type Field = Option<string>

  /** The messages by field name; only fields with a broken rule appear. */
  type Errors = map<string, set<string>>

  /** `/^[a-zA-Z0-9]+$/`. */
  predicate IsAlphanumeric(s: string) {
    |s| > 0 && forall i :: 0 <= i < |s| ==> IsAsciiAlnum(s[i])
  }

  /** `file.name.endsWith(".html")`, case-sensitive. */
  predicate IsHtmlFileName(name: string) {
    EndsWith(name, ".html")
  }

  /** The `chapterId` rules: required, alphanumeric, at most 12 characters. */
  function ChapterIdErrors(v: Field): (r: set<string>)
    ensures r == {} <==> v.Some? && IsAlphanumeric(v.value) && |v.value| <= MaxChapterIdLength
    ensures v.None? ==> r == {ChapterIdRequired}
    ensures v == Some("") ==> r == {ChapterIdRequired, ChapterIdAlphanumeric}
    ensures v.Some? && v.value != "" && !IsAlphanumeric(v.value) ==> ChapterIdAlphanumeric in r
    ensures v.Some? && |v.value| > MaxChapterIdLength ==> ChapterIdTooLong in r
    ensures r <= {ChapterIdRequired, ChapterIdAlphanumeric, ChapterIdTooLong}
  {
    match v
    case None => {ChapterIdRequired}
    case Some(s) =>
      (if s == "" then {ChapterIdRequired} else {})
      + (if !IsAlphanumeric(s) then {ChapterIdAlphanumeric} else {})
      + (if |s| > MaxChapterIdLength then {ChapterIdTooLong} else {})
  }

  /** The `html` rules: required, and not blank once trimmed. */
  function HtmlErrors(v: Field): (r: set<string>)
    ensures r == {} <==> v.Some? && !AllSpace(v.value)
    ensures v.None? || v == Some("") ==> HtmlRequired in r
    ensures v.Some? && AllSpace(v.value) ==> HtmlEmpty in r
    ensures v.Some? && v.value != "" ==> HtmlRequired !in r
    ensures r <= {HtmlRequired, HtmlEmpty}
  {
    match v
    case None => {HtmlRequired}
    case Some(s) => (if s == "" then {HtmlRequired} else {}) + (if AllSpace(s) then {HtmlEmpty} else {})
  }

  /** The `files` rules: an array, of at least and at most one file, every file
      named `.html`. The messages of the files themselves are gathered here
      with the array's own. */
  function FilesErrors(files: Option<seq<string>>): (r: set<string>)
    ensures r == {} <==> files.Some? && |files.value| == 1 && IsHtmlFileName(files.value[0])
    ensures files == Some([]) ==> r == {FileRequired}
    ensures files.Some? && |files.value| > 1 ==> OneFileOnly in r
    ensures files.Some? && (exists i :: 0 <= i < |files.value| && !IsHtmlFileName(files.value[i])) ==> HtmlFilesOnly in r
  {
    match files
    case None => {FilesRequired}
    case Some(names) =>
      (if |names| < 1 then {FileRequired} else {})
      + (if |names| > 1 then {OneFileOnly} else {})
      + (if exists i :: 0 <= i < |names| && !IsHtmlFileName(names[i]) then {HtmlFilesOnly} else {})
  }

  /** The field's entry in the error map, absent when it broke no rule. */
  function Entry(name: string, messages: set<string>): (e: Errors)
    ensures name in e <==> messages != {}
    ensures name in e ==> e[name] == messages
    ensures e.Keys <= {name}
  {
    if messages == {} then map[] else map[name := messages]
  }

  /** The hover page's editor form (`chapterId`, `html`). */
  function ValidateHoverEditorForm(chapterId: Field, html: Field): (r: Result<(string, string), Errors>)
    ensures r.Success? <==> chapterId.Some? && IsAlphanumeric(chapterId.value) && |chapterId.value| <= 12
                            && html.Some? && !AllSpace(html.value)
    ensures r.Success? ==> r.value == (chapterId.value, html.value)
    ensures r.Failure? ==> r.error != map[] && r.error.Keys <= {"chapterId", "html"}
  {
    var errors := Entry("chapterId", ChapterIdErrors(chapterId)) + Entry("html", HtmlErrors(html));
    if errors == map[] then Success((chapterId.value, html.value)) else Failure(errors)
  }

  /** The hover page's upload form (`chapterId`, `files`). */
  function ValidateHoverUploadForm(chapterId: Field, files: Option<seq<string>>): (r: Result<(string, string), Errors>)
    ensures r.Success? <==> chapterId.Some? && IsAlphanumeric(chapterId.value) && |chapterId.value| <= 12
                            && files.Some? && |files.value| == 1 && IsHtmlFileName(files.value[0])
    ensures r.Success? ==> r.value == (chapterId.value, files.value[0])
    ensures r.Failure? ==> r.error != map[] && r.error.Keys <= {"chapterId", "files"}
  {
    var errors := Entry("chapterId", ChapterIdErrors(chapterId)) + Entry("files", FilesErrors(files));
    if errors == map[] then Success((chapterId.value, files.value[0])) else Failure(errors)
  }

  /** The cleaner page's editor form (`html` only). */
  function ValidateCleanerEditorForm(html: Field): (r: Result<string, Errors>)
    ensures r.Success? <==> html.Some? && !AllSpace(html.value)
    ensures r.Success? ==> r.value == html.value
    ensures r.Failure? ==> r.error.Keys == {"html"}
  {
    var errors := Entry("html", HtmlErrors(html));
    if errors == map[] then Success(html.value) else Failure(errors)
  }

  /** The cleaner page's upload form (`files` only). */
  function ValidateCleanerUploadForm(files: Option<seq<string>>): (r: Result<string, Errors>)
    ensures r.Success? <==> files.Some? && |files.value| == 1 && IsHtmlFileName(files.value[0])
    ensures r.Success? ==> r.value == files.value[0]
    ensures r.Failure? ==> r.error.Keys == {"files"}
  {
    var errors := Entry("files", FilesErrors(files));
    if errors == map[] then Success(files.value[0]) else Failure(errors)
  }

  /** The values of the mode-switched hover form; `file` is the chosen file's name. */
  datatype HoverFormValues = HoverFormValues(chapterId: Field, html: Field, file: Field, mode: Field)

  /** The validated values; the field of the inactive mode is stripped. */
  datatype HoverForm = HoverForm(chapterId: string, html: Option<string>, file: Option<string>, mode: string)

  /** The `file` rules of the upload mode: required, named `.html`. */
  function UploadErrors(file: Field): (r: set<string>)
    ensures r == {} <==> file.Some? && IsHtmlFileName(file.value)
    ensures file.None? ==> r == {UploadRequired}
  {
    match file
    case None => {UploadRequired}
    case Some(name) => if IsHtmlFileName(name) then {} else {HtmlFilesOnly}
  }

  /** `hoverTranslationSchema`: `html` is checked only when `mode` is "editor"
      and `file` only when it is "upload"; otherwise each is stripped. */
  function ValidateHoverTranslationForm(v: HoverFormValues): (r: Result<HoverForm, Errors>)
    ensures r.Success? <==>
      && v.chapterId.Some? && IsAlphanumeric(v.chapterId.value) && |v.chapterId.value| <= 12
      && v.mode.Some? && v.mode.value != ""
      && (v.mode.value == "editor" ==> v.html.Some? && !AllSpace(v.html.value))
      && (v.mode.value == "upload" ==> v.file.Some? && IsHtmlFileName(v.file.value))
    ensures r.Success? ==> (r.value.html.Some? <==> v.mode == Some("editor"))
    ensures r.Success? ==> (r.value.file.Some? <==> v.mode == Some("upload"))
    ensures r.Success? && r.value.html.Some? ==> r.value.html == v.html
    ensures r.Success? && r.value.file.Some? ==> r.value.file == v.file
    ensures r.Failure? && v.mode != Some("editor") ==> "html" !in r.error
    ensures r.Failure? && v.mode != Some("upload") ==> "file" !in r.error
    ensures v.mode == Some("upload") && v.file.None? ==> r.Failure? && "file" in r.error && r.error["file"] == {UploadRequired}
  {
    var editor := v.mode == Some("editor");
    var upload := v.mode == Some("upload");
    var modeErrors: set<string> := if v.mode.None? || v.mode == Some("") then {ModeRequired} else {};
    var errors := Entry("chapterId", ChapterIdErrors(v.chapterId))
                  + Entry("html", if editor then HtmlErrors(v.html) else {})
                  + Entry("file", if upload then UploadErrors(v.file) else {})
                  + Entry("mode", modeErrors);
    if errors == map[] then
      Success(HoverForm(v.chapterId.value, if editor then v.html else None, if upload then v.file else None, v.mode.value))
    else Failure(errors)
  }

  /** The inactive mode's field is never looked at: any value gives the same
      outcome. */
  lemma InactiveFieldIgnored(v: HoverFormValues, html: Field, file: Field)
    ensures v.mode != Some("editor") ==>
      ValidateHoverTranslationForm(v.(html := html)) == ValidateHoverTranslationForm(v)
    ensures v.mode != Some("upload") ==>
      ValidateHoverTranslationForm(v.(file := file)) == ValidateHoverTranslationForm(v)
  {
  }

  /** The two standalone hover forms and the mode-switched one agree on what
      they accept. */
  lemma ModesAgreeWithForms(v: HoverFormValues)
    ensures v.mode == Some("editor") ==>
      (ValidateHoverTranslationForm(v).Success? <==> ValidateHoverEditorForm(v.chapterId, v.html).Success?)
    ensures v.mode == Some("upload") ==>
      (ValidateHoverTranslationForm(v).Success? <==>
         v.file.Some? && ValidateHoverUploadForm(v.chapterId, Some([v.file.value])).Success?)
  {
  }
}
