/**
 * The marshmallow request schemas of the two backend features, as validator
 * functions from the submitted fields to either the loaded data or, per
 * field, the message of the first rule that field broke.
 *
 * A schema refuses keys it does not declare (marshmallow's default `RAISE`).
 * A field that is absent gets the required message, a `null` the null
 * message, a value of the wrong kind the type message, and only a value of
 * the right kind reaches the field's own validator.
 */
module BackendSchemas {
  import opened Wrappers
  import opened Text
  import opened BackendCommons

  /** One submitted value: JSON `null`, a boolean, a number, a string, an
      uploaded file (with what decoding it would give) or anything else. */
  datatype Value = Null | Bool(b: bool) | Int(i: int) | Str(s: string) | Upload(content: Decoded) | Other

  /** The submitted fields by name. */
  type Input = map<string, Value>

  /** The messages by field name; empty when loading succeeds. */
  type Errors = map<string, string>

  const MissingMessage: string := "Missing data for required field."
  const NullMessage: string := "Field may not be null."
  const InvalidStringMessage: string := "Not a valid string."
  const InvalidIntegerMessage: string := "Not a valid integer."
  const UnknownFieldMessage: string := "Unknown field."
  const ChapterMessage: string := "Chapter must be a positive integer."

  /** Python's `int(s)` on a string: surrounding whitespace, an optional sign
      and at least one decimal digit. */
  function ParseInt(s: string): (r: Option<int>)
    ensures r.Some? ==> !AllSpace(s)
  {
    var t := Strip(s);
    if t == [] then None
    else if t[0] == '-' || t[0] == '+' then
      if IsDigits(t[1..]) then Some(if t[0] == '-' then 0 - DigitsValue(t[1..]) as int else DigitsValue(t[1..])) else None
    else if IsDigits(t) then Some(DigitsValue(t))
    else None
  }

  /** A string with no whitespace at either end is its own strip. */
  lemma StripUnpadded(s: string)
    requires s != [] && !IsSpace(s[0]) && !IsSpace(s[|s| - 1])
    ensures Strip(s) == s
  {
    assert LeadingSpaces(s) == 0;
    assert s[0..] == s;
    assert TrailingSpaces(s) == 0;
  }

  /** Every integer survives printing and parsing: `int(str(i)) == i`. */
  lemma ParseIntRoundTrip(i: int)
    ensures ParseInt(IntToString(i)) == Some(i)
  {
    var s := IntToString(i);
    var digits := NatToString(if i < 0 then -i else i);
    StripUnpadded(s);
    NatToStringRoundTrip(if i < 0 then -i else i);
    if i < 0 {
      assert s[1..] == digits;
    } else {
      assert s == digits;
    }
  }

  /** `fields.Integer()`: booleans are refused although Python counts them as
      integers; strings are parsed. */
  function DeserializeInteger(v: Value): (r: Option<int>)
    ensures v.Int? ==> r == Some(v.i)
    ensures v.Bool? || v.Null? || v.Upload? || v.Other? ==> r.None?
  {
    match v
    case Int(i) => Some(i)
    case Str(s) => ParseInt(s)
    case _ => None
  }

  /** `html = fields.String(required=True, validate=not_empty_html)`. */
  function LoadHtmlField(input: Input): (r: Result<string, string>)
    ensures r.Success? <==> "html" in input && input["html"].Str? && !AllSpace(input["html"].s)
    ensures r.Success? ==> r.value == input["html"].s
    ensures "html" !in input ==> r == Failure(MissingMessage)
    ensures "html" in input && input["html"].Null? ==> r == Failure(NullMessage)
    ensures "html" in input && input["html"].Str? && AllSpace(input["html"].s) ==> r == Failure(EmptyHtmlMessage)
  {
    if "html" !in input then Failure(MissingMessage)
    else match input["html"]
      case Null => Failure(NullMessage)
      case Str(s) =>
        (match NotEmptyHtml(s)
         case Some(msg) => Failure(msg)
         case None => Success(s))
      case _ => Failure(InvalidStringMessage)
  }

  /** `chapter = fields.Integer(required=True, validate=Range(min=1, ...))`. */
  function LoadChapterField(input: Input): (r: Result<int, string>)
    ensures r.Success? <==> "chapter" in input && DeserializeInteger(input["chapter"]).Some?
                            && DeserializeInteger(input["chapter"]).value >= 1
    ensures r.Success? ==> r.value == DeserializeInteger(input["chapter"]).value && r.value >= 1
    ensures "chapter" !in input ==> r == Failure(MissingMessage)
    ensures "chapter" in input && input["chapter"].Int? && input["chapter"].i < 1 ==> r == Failure(ChapterMessage)
    ensures "chapter" in input && input["chapter"].Bool? ==> r == Failure(InvalidIntegerMessage)
  {
    if "chapter" !in input then Failure(MissingMessage)
    else if input["chapter"].Null? then Failure(NullMessage)
    else match DeserializeInteger(input["chapter"])
      case None => Failure(InvalidIntegerMessage)
      case Some(i) => if i < 1 then Failure(ChapterMessage) else Success(i)
  }

  /** `file = fields.Field(required=True)`: any value except `null`. */
  function LoadFileField(input: Input): (r: Result<Value, string>)
    ensures r.Success? <==> "file" in input && !input["file"].Null?
    ensures r.Success? ==> r.value == input["file"]
    ensures "file" !in input ==> r == Failure(MissingMessage)
  {
    if "file" !in input then Failure(MissingMessage)
    else if input["file"].Null? then Failure(NullMessage)
    else Success(input["file"])
  }

  /** One message for every key the schema does not declare. */
  function UnknownFields(input: Input, declared: set<string>): (r: Errors)
    ensures r.Keys == input.Keys - declared
    ensures forall k :: k in r ==> r[k] == UnknownFieldMessage
  {
    map k | k in input.Keys && k !in declared :: UnknownFieldMessage
  }

  /** The message of one failed field, under its name. */
  function FieldError<T>(name: string, r: Result<T, string>): (e: Errors)
    ensures e.Keys == if r.Failure? then {name} else {}
    ensures r.Failure? ==> e[name] == r.error
  {
    if r.Failure? then map[name := r.error] else map[]
  }

  /** The errors of a two-field schema: every undeclared key as unknown, then
      each failed field's message under its name. */
  function SchemaErrors<A, B>(input: Input, a: string, ra: Result<A, string>, b: string, rb: Result<B, string>): (e: Errors)
    requires a != b
    ensures forall k :: k in input && k != a && k != b ==> k in e && e[k] == UnknownFieldMessage
    ensures forall k :: k in e ==> (k in input && k != a && k != b) || (k == a && ra.Failure?) || (k == b && rb.Failure?)
    ensures ra.Failure? ==> a in e && e[a] == ra.error
    ensures rb.Failure? ==> b in e && e[b] == rb.error
    ensures e == map[] <==> input.Keys <= {a, b} && ra.Success? && rb.Success?
  {
    var e := UnknownFields(input, {a, b}) + FieldError(a, ra) + FieldError(b, rb);
    assert e == map[] ==> input.Keys - {a, b} == {};
    e
  }

  datatype HoverTranslationRequest = HoverTranslationRequest(html: string, chapter: int)

  datatype HoverTranslationFileRequest = HoverTranslationFileRequest(file: Value, chapter: int)

  /** `HoverTranslationSchema().load(input)`. */
  function LoadHoverTranslation(input: Input): (r: Result<HoverTranslationRequest, Errors>)
    ensures r.Success? <==>
      && input.Keys <= {"html", "chapter"}
      && "html" in input && input["html"].Str? && !AllSpace(input["html"].s)
      && "chapter" in input && DeserializeInteger(input["chapter"]).Some? && DeserializeInteger(input["chapter"]).value >= 1
    ensures r.Success? ==> r.value.html == input["html"].s && r.value.chapter >= 1
    ensures r.Failure? ==> r.error != map[]
    ensures r.Failure? ==> forall k :: k in r.error && k != "html" && k != "chapter" ==> r.error[k] == UnknownFieldMessage
    ensures r.Failure? ==> forall k :: k in input && k != "html" && k != "chapter" ==> k in r.error && r.error[k] == UnknownFieldMessage
    ensures r.Failure? ==> forall k :: k in r.error ==>
      || (k in input && k != "html" && k != "chapter")
      || (k == "html" && LoadHtmlField(input).Failure?)
      || (k == "chapter" && LoadChapterField(input).Failure?)
    ensures LoadHtmlField(input).Failure? ==> r.Failure? && "html" in r.error && r.error["html"] == LoadHtmlField(input).error
    ensures LoadChapterField(input).Failure? ==> r.Failure? && "chapter" in r.error && r.error["chapter"] == LoadChapterField(input).error
  {
    var html := LoadHtmlField(input);
    var chapter := LoadChapterField(input);
    var errors := SchemaErrors(input, "html", html, "chapter", chapter);
    if errors == map[] then
      Success(HoverTranslationRequest(html.value, chapter.value))
    else Failure(errors)
  }

  /** `HoverTranslationFileSchema().load(input)`: the file's content is not looked at. */
  function LoadHoverTranslationFile(input: Input): (r: Result<HoverTranslationFileRequest, Errors>)
    ensures r.Success? <==>
      && input.Keys <= {"file", "chapter"}
      && "file" in input && !input["file"].Null?
      && "chapter" in input && DeserializeInteger(input["chapter"]).Some? && DeserializeInteger(input["chapter"]).value >= 1
    ensures r.Success? ==> r.value.file == input["file"] && r.value.chapter >= 1
    ensures r.Failure? ==> r.error != map[]
    ensures r.Failure? ==> forall k :: k in input && k != "file" && k != "chapter" ==> k in r.error && r.error[k] == UnknownFieldMessage
    ensures r.Failure? ==> forall k :: k in r.error ==>
      || (k in input && k != "file" && k != "chapter")
      || (k == "file" && LoadFileField(input).Failure?)
      || (k == "chapter" && LoadChapterField(input).Failure?)
    ensures LoadFileField(input).Failure? ==> r.Failure? && "file" in r.error && r.error["file"] == LoadFileField(input).error
    ensures LoadChapterField(input).Failure? ==> r.Failure? && "chapter" in r.error && r.error["chapter"] == LoadChapterField(input).error
  {
    var file := LoadFileField(input);
    var chapter := LoadChapterField(input);
    var errors := SchemaErrors(input, "file", file, "chapter", chapter);
    if errors == map[] then
      Success(HoverTranslationFileRequest(file.value, chapter.value))
    else Failure(errors)
  }

  /** `CleanHTMLSchema().load(input)`. */
  function LoadCleanHtml(input: Input): (r: Result<string, Errors>)
    ensures r.Success? <==> input.Keys <= {"html"} && "html" in input && input["html"].Str? && !AllSpace(input["html"].s)
    ensures r.Success? ==> r.value == input["html"].s
    ensures r.Failure? ==> r.error != map[]
    ensures r.Failure? ==> forall k :: k in input && k != "html" ==> k in r.error && r.error[k] == UnknownFieldMessage
    ensures r.Failure? ==> forall k :: k in r.error ==> (k in input && k != "html") || (k == "html" && LoadHtmlField(input).Failure?)
    ensures LoadHtmlField(input).Failure? ==> r.Failure? && "html" in r.error && r.error["html"] == LoadHtmlField(input).error
  {
    var html := LoadHtmlField(input);
    var errors := UnknownFields(input, {"html"}) + FieldError("html", html);
    if errors == map[] then
      assert input.Keys - {"html"} == {};
      Success(html.value)
    else Failure(errors)
  }

  /** `CleanHTMLFileSchema().load(input)`: neither the name nor the content of
      the file is looked at. */
  function LoadCleanHtmlFile(input: Input): (r: Result<Value, Errors>)
    ensures r.Success? <==> input.Keys <= {"file"} && "file" in input && !input["file"].Null?
    ensures r.Success? ==> r.value == input["file"]
    ensures r.Failure? ==> r.error != map[]
    ensures r.Failure? ==> forall k :: k in input && k != "file" ==> k in r.error && r.error[k] == UnknownFieldMessage
    ensures r.Failure? ==> forall k :: k in r.error ==> (k in input && k != "file") || (k == "file" && LoadFileField(input).Failure?)
    ensures LoadFileField(input).Failure? ==> r.Failure? && "file" in r.error && r.error["file"] == LoadFileField(input).error
  {
    var file := LoadFileField(input);
    var errors := UnknownFields(input, {"file"}) + FieldError("file", file);
    if errors == map[] then
      assert input.Keys - {"file"} == {};
      Success(file.value)
    else Failure(errors)
  }

  /** A chapter below one is refused with the schema's own message, whatever
      the other fields hold. */
  lemma NonPositiveChapterRejected(input: Input, chapter: int)
    requires "chapter" in input && input["chapter"] == Int(chapter) && chapter <= 0
    ensures LoadHoverTranslation(input).Failure? && LoadHoverTranslation(input).error["chapter"] == ChapterMessage
    ensures LoadHoverTranslationFile(input).Failure? && LoadHoverTranslationFile(input).error["chapter"] == ChapterMessage
  {
  }

  /** A blank `html` is refused with the shared message by both text schemas. */
  lemma BlankHtmlRejected(input: Input)
    requires "html" in input && input["html"].Str? && AllSpace(input["html"].s)
    ensures LoadHoverTranslation(input).Failure? && LoadHoverTranslation(input).error["html"] == EmptyHtmlMessage
    ensures LoadCleanHtml(input).Failure? && LoadCleanHtml(input).error["html"] == EmptyHtmlMessage
  {
  }

  /** The file schemas accept any upload, readable or not: decoding happens
      later, in `read_uploaded_html_file`. */
  lemma AnyUploadAccepted(content: Decoded, chapter: int)
    requires chapter >= 1
    ensures LoadCleanHtmlFile(map["file" := Upload(content)]) == Success(Upload(content))
    ensures LoadHoverTranslationFile(map["file" := Upload(content), "chapter" := Str(IntToString(chapter))])
            == Success(HoverTranslationFileRequest(Upload(content), chapter))
  {
    ParseIntRoundTrip(chapter);
  }

  /** The page sends the chapter under `chapterId`, a key the schema does not
      declare, so such a request is refused on two counts. */
  lemma ChapterIdKeyRejected(html: string, chapterId: string)
    ensures var r := LoadHoverTranslation(map["html" := Str(html), "chapterId" := Str(chapterId)]);
            r.Failure? && r.error["chapterId"] == UnknownFieldMessage && r.error["chapter"] == MissingMessage
  {
  }
}
