/**
 * The `POST /convert` handler: validate the two body fields, sanitise the
 * request timestamp, dispatch on the format to one generator, and answer
 * with the generated bytes and their download headers, a 400 for a bad
 * request, or a 500 carrying the message of whatever was thrown.
 */
module Convert {
  import opened Wrappers
  import opened JsValues
  import opened Timestamp
  import opened Formats

  newtype byte = x: int | 0 <= x < 256
  type Bytes = seq<byte>

  /**
   * Everything the handler calls but cannot see: the document, spreadsheet,
   * PDF and Markdown libraries and `Buffer.from`, each of which either yields
   * the bytes of the artifact or throws with a message; and the message the
   * JavaScript engine gives the TypeError of destructuring a `null` body.
   */
  datatype Runtime = Runtime(
    destructureError: string,
    packDocument: JsValue -> Result<Bytes, string>,
    writeWorkbook: seq<JsValue> -> Result<Bytes, string>,
    savePdf: JsValue -> Result<Bytes, string>,
    renderMarkdown: JsValue -> Result<Bytes, string>,
    encodeUtf8: JsValue -> Result<Bytes, string>)

  /** A binary download (status 200), or a JSON `{ error }` body with its status. */
  datatype Response =
    | FileResponse(contentType: string, contentDisposition: string, body: Bytes)
    | JsonError(status: int, error: string)

  function Status(r: Response): int {
    if r.FileResponse? then 200 else r.status
  }

  const MissingFieldsError: string := "format & content required"
  const UnsupportedFormatError: string := "Unsupported format"

  /** The fields of a parsed body, or None when the body did not parse or was `null`. */
  function RequestFields(body: Result<JsValue, string>): Option<Fields> {
    if body.Success? then Destructure(body.value) else None
  }

  /** The validation guard `!format || !content` negated: both fields are truthy. */
  predicate BothPresent(flds: Fields)
    ensures BothPresent(flds) <==>
      flds.format !in {Undefined, Null, Bool(false), Num(0.0), Str("")}
      && flds.content !in {Undefined, Null, Bool(false), Num(0.0), Str("")}
  {
    Truthy(flds.format) && Truthy(flds.content)
  }

  /** The `switch (format)`: strict equality against the five string labels. */
  function Dispatch(format: JsValue): (r: Option<Format>)
    ensures forall f: Format :: r == Some(f) <==> format == Str(Tag(f))
  {
    if format.Str? then ParseFormat(format.s) else None
  }

  /** The rows handed to the worksheet: an array is used as the rows, anything else becomes one row. */
  function SheetRows(content: JsValue): (rows: seq<JsValue>)
    ensures IsArray(content) ==> rows == content.elems
    ensures !IsArray(content) ==> rows == [content]
    ensures |rows| == 0 <==> content == Arr([])
  {
    if IsArray(content) then content.elems else [content]
  }

  /** The one library call of the selected branch. */
  function Generate(rt: Runtime, f: Format, content: JsValue): Result<Bytes, string> {
    match f
    case Docx => rt.packDocument(content)
    case Xlsx => rt.writeWorkbook(SheetRows(content))
    case Pdf => rt.savePdf(content)
    case Md => rt.renderMarkdown(content)
    case Txt => rt.encodeUtf8(content)
  }

  /** The `Content-Disposition` value for a download name. */
  function Disposition(name: string): (r: string)
    ensures |r| == |name| + 23 && r[..22] == "attachment; filename=\""
    ensures r[21] == '"' && r[22..|r| - 1] == name && r[|r| - 1] == '"'
  {
    "attachment; filename=\"" + name + "\""
  }

  /**
   * The handler. `body` is the outcome of parsing the request body as JSON
   * (its message when that throws) and `rawTimestamp` is the ISO-8601 string
   * of the request time.
   */
  function Handle(body: Result<JsValue, string>, rawTimestamp: string, rt: Runtime): (r: Response)
    ensures Status(r) == 200 || Status(r) == 400 || Status(r) == 500
  {
    match body
    case Failure(msg) => JsonError(500, msg)
    case Success(v) =>
      match Destructure(v)
      case None => JsonError(500, rt.destructureError)
      case Some(flds) =>
        if !BothPresent(flds) then JsonError(400, MissingFieldsError)
        else
          var ts := Sanitize(rawTimestamp);
          match Dispatch(flds.format)
          case None => JsonError(400, UnsupportedFormatError)
          case Some(f) =>
            match Generate(rt, f, flds.content)
            case Failure(msg) => JsonError(500, msg)
            case Success(bytes) => FileResponse(Mime(f), Disposition(FileName(f, ts)), bytes)
  }

  /**
   * A parsed, non-null body lacking a truthy `format` or `content` is
   * rejected with 400 and the "required" message, and that is the only way
   * to get that response.
   */
  lemma MissingFieldsRejected(body: Result<JsValue, string>, rawTimestamp: string, rt: Runtime)
    ensures Handle(body, rawTimestamp, rt) == JsonError(400, MissingFieldsError)
        <==> RequestFields(body).Some? && !BothPresent(RequestFields(body).value)
  {
  }

  /**
   * With both fields present, a format other than the five labels is
   * rejected with 400 "Unsupported format"; that response arises in no
   * other way.
   */
  lemma UnsupportedFormatRejected(body: Result<JsValue, string>, rawTimestamp: string, rt: Runtime)
    ensures Handle(body, rawTimestamp, rt) == JsonError(400, UnsupportedFormatError)
        <==> RequestFields(body).Some? && BothPresent(RequestFields(body).value)
             && (forall f: Format :: RequestFields(body).value.format != Str(Tag(f)))
  {
  }

  /**
   * A 400 response never depends on the clock or on any library: no
   * generator is consulted before the request is validated and its format
   * recognised.
   */
  lemma RejectionRunsNoGenerator(body: Result<JsValue, string>, ts1: string, ts2: string, rt1: Runtime, rt2: Runtime)
    requires Status(Handle(body, ts1, rt1)) == 400
    ensures Handle(body, ts2, rt2) == Handle(body, ts1, rt1)
  {
  }

  /**
   * The response depends on the runtime only through the one generator the
   * format selects (and the engine's message for a `null` body).
   */
  lemma OnlySelectedGeneratorMatters(body: Result<JsValue, string>, rawTimestamp: string, rt1: Runtime, rt2: Runtime)
    requires rt1.destructureError == rt2.destructureError
    requires RequestFields(body).Some? && Dispatch(RequestFields(body).value.format).Some? ==>
      var f, content := Dispatch(RequestFields(body).value.format).value, RequestFields(body).value.content;
      Generate(rt1, f, content) == Generate(rt2, f, content)
    ensures Handle(body, rawTimestamp, rt1) == Handle(body, rawTimestamp, rt2)
  {
  }

  /**
   * A successful response is exactly a valid request with a recognised
   * format whose generator returned bytes; it carries that format's MIME
   * type, an attachment disposition naming `result-<sanitised ts>.<tag>`,
   * and the generator's bytes unchanged.
   */
  lemma SuccessResponse(body: Result<JsValue, string>, rawTimestamp: string, rt: Runtime, f: Format, bytes: Bytes)
    ensures Handle(body, rawTimestamp, rt) == FileResponse(Mime(f), Disposition(FileName(f, Sanitize(rawTimestamp))), bytes)
        <==> RequestFields(body).Some? && BothPresent(RequestFields(body).value)
             && RequestFields(body).value.format == Str(Tag(f))
             && Generate(rt, f, RequestFields(body).value.content) == Success(bytes)
  {
  }

  /** The format the `switch` selects for a body, if it gets that far. */
  function SelectedFormat(body: Result<JsValue, string>): Option<Format> {
    if RequestFields(body).Some? then Dispatch(RequestFields(body).value.format) else None
  }

  /**
   * Every successful response has the shape of one of the five branches:
   * the MIME type and the file extension name the same format, the one the
   * request selected.
   */
  lemma DownloadHeadersAgree(body: Result<JsValue, string>, rawTimestamp: string, rt: Runtime)
    requires Handle(body, rawTimestamp, rt).FileResponse?
    ensures SelectedFormat(body).Some?
    ensures var r, f := Handle(body, rawTimestamp, rt), SelectedFormat(body).value;
      r.contentType == Mime(f) && r.contentDisposition == Disposition(FileName(f, Sanitize(rawTimestamp)))
  {
  }

  /**
   * Every failure is a 500 carrying the thrown message: a body that does not
   * parse, a `null` body, or a generator that throws. Nothing else yields 500.
   */
  lemma FailuresAreServerErrors(body: Result<JsValue, string>, rawTimestamp: string, rt: Runtime)
    ensures var r := Handle(body, rawTimestamp, rt);
      Status(r) == 500 <==>
        body.Failure? || RequestFields(body).None?
        || (BothPresent(RequestFields(body).value) && Dispatch(RequestFields(body).value.format).Some?
            && Generate(rt, Dispatch(RequestFields(body).value.format).value, RequestFields(body).value.content).Failure?)
    ensures var r := Handle(body, rawTimestamp, rt);
      body.Failure? ==> r == JsonError(500, body.error)
    ensures var r := Handle(body, rawTimestamp, rt);
      body.Success? && RequestFields(body).None? ==> r == JsonError(500, rt.destructureError)
    ensures var r := Handle(body, rawTimestamp, rt);
      RequestFields(body).Some? && BothPresent(RequestFields(body).value)
      && Dispatch(RequestFields(body).value.format).Some?
      && Generate(rt, Dispatch(RequestFields(body).value.format).value, RequestFields(body).value.content).Failure?
      ==> r == JsonError(500, Generate(rt, Dispatch(RequestFields(body).value.format).value, RequestFields(body).value.content).error)
  {
  }
}
