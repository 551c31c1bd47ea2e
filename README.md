# Convert: the `POST /convert` handler

Convert is a small web service that turns text into a downloadable
document, spreadsheet, PDF, Markdown or plain-text file. Its logic is one
request handler (`backend/src/index.js`). The handler reads `format` and
`content` from a JSON body. It rejects the request when either is falsy,
makes the request's ISO-8601 timestamp safe for a file name, and dispatches
on `format` to one of five branches, each a short sequence of library calls. It then answers with the bytes and
two headers, `Content-Type` and `Content-Disposition`. A bad request gets a
400 with a JSON `error`. Anything thrown, whether by JSON parsing or by a
library, gets a 500 carrying the exception's message.

The model is pure, like the handler. There is no loop, no field and no state that outlives a request:

- `wrappers.dfy`: `Option` and `Result`.
- `js_value.dfy` (`JsValues`): the JSON values a body can hold, JavaScript truthiness, and destructuring `{ format, content }` out of the body.
- `timestamp.dfy` (`Timestamp`): the `[:.]` → `-` replacement and its properties.
- `formats.dfy` (`Formats`): the five formats, their labels and MIME types, the `result-<ts>.<ext>` file name and its inverse.
- `convert.dfy` (`Convert`): the handler `Handle`. It takes the outcome of body parsing, the raw timestamp and a `Runtime` record that stands for the libraries.
- `download.dfy` (`Download`): how the browser client reads the file name back out of `Content-Disposition` (see Findings).

Foreign behaviour is a parameter of `Handle`:

- Each library encoder is an arrow-typed field of `Runtime` that returns the bytes or a thrown message.
- The engine's message for destructuring a `null` body is also a field of `Runtime`.
- The clock is the `rawTimestamp` argument.
- JSON parsing is the `body: Result<JsValue, string>` argument.

What the handler's code does, branch by branch:

- Every download is named `result-<ts>.<ext>`, and the extension is the format's label (backend/src/index.js:28-58).
- Only `Content-Type` and `Content-Disposition` are set on a download (backend/src/index.js:64-68).
- A 500 carries the thrown exception's own message (backend/src/index.js:70-71).
- The `md` branch renders Markdown to HTML with MarkdownIt and labels the result `text/markdown; charset=utf-8` (backend/src/index.js:50-51). The model states the label only.
- `docx`, `pdf` and `md` hand `content` to their library unchanged (backend/src/index.js:24, 43, 50).
- For `xlsx`, the rows are `content` if it is an array, otherwise `[content]` (backend/src/index.js:34).

## Model

| member | source | states |
|---|---|---|
| `JsValues.Truthy` | backend/src/index.js:16 | `undefined`, `null`, `false`, `0` and `""` are exactly the falsy values; arrays and objects, even empty ones, are truthy |
| `JsValues.Destructure` | backend/src/index.js:15 | destructuring fails exactly on a `null`/`undefined` body; otherwise both fields are the body's properties, `undefined` when absent |
| `Timestamp.Sanitize` | backend/src/index.js:18 | same length as the input, each `:` and `.` becomes `-`, every other character is unchanged, and no `:` or `.` is left |
| `Timestamp.SanitizeIdempotent` | backend/src/index.js:18 | sanitising twice equals sanitising once |
| `Timestamp.SanitizeFixedPoints` | backend/src/index.js:18 | a string is left unchanged if and only if it contains no `:` or `.` |
| `Timestamp.SanitizeAppend` | backend/src/index.js:18 | the replacement is per character: it distributes over concatenation |
| `Formats.Tag` | backend/src/index.js:22-55 | the five `case` labels, also used as extensions; each is non-empty and has no `:` or `.` |
| `Formats.ParseFormat` | backend/src/index.js:21-61 | a string selects a format exactly when it equals that format's label; any other string selects none |
| `Formats.ParseTag` | backend/src/index.js:22-55 | each of the five labels selects its own format: the dispatch is total over the five tags |
| `Formats.Mime` | backend/src/index.js:27-57 | the five MIME literals; exactly the `md` and `txt` types end in `; charset=utf-8` |
| `Formats.MimeInjective` | backend/src/index.js:27-57 | the five fixed MIME types are pairwise distinct |
| `Formats.FileName` | backend/src/index.js:28-58 | the template `result-${ts}.<tag>`; its properties are stated by `FileNameShape` and `FileNameRoundTrip` |
| `Formats.ParseFileName` | backend/src/index.js:28-58 | a name accepted by the reader is `result-<ts>.<tag>` for the timestamp and format it returns |
| `Formats.FileNameRoundTrip` | backend/src/index.js:28-58 | a name built from a timestamp without `.` reads back to exactly that timestamp and format |
| `Formats.FileNameInjective` | backend/src/index.js:28-58 | for two timestamps that both lack `.`, distinct timestamps or distinct formats never produce the same file name |
| `Formats.FileNameDeterminesFormat` | backend/src/index.js:28-58 | for any two timestamps, names of different formats differ: the name's ending determines the format |
| `Formats.FileNameShape` | backend/src/index.js:18-58 | a name built from a sanitised timestamp starts with `result-`, ends with the format's label as extension, contains no `:`, and its only `.` precedes the extension |
| `Convert.Dispatch` | backend/src/index.js:21-61 | the `switch` picks format `f` if and only if `format` is the string `Tag(f)`, so numbers, arrays and other strings are unsupported |
| `Convert.SheetRows` | backend/src/index.js:34 | an array `content` is itself the rows, anything else becomes the single row `[content]`; the rows are empty only for an empty array |
| `Convert.BothPresent` | backend/src/index.js:16 | the guard passes exactly when neither field is one of the five falsy values `undefined`, `null`, `false`, `0`, `""` |
| `Convert.Generate` | backend/src/index.js:23-56 | the selected branch's library calls, as one opaque step; xlsx gets `SheetRows(content)`, the others `content` itself (that the response depends on no other branch is stated by `OnlySelectedGeneratorMatters`) |
| `Convert.Disposition` | backend/src/index.js:67 | `attachment; filename="<name>"`: the name sits between two quotes right after `attachment; filename=` |
| `Convert.Handle` | backend/src/index.js:13-73 | every response is a 200 download, a 400 or a 500 |
| `Convert.MissingFieldsRejected` | backend/src/index.js:16 | the response is 400 `format & content required` if and only if the body parsed, is not `null`, and `format` or `content` is falsy |
| `Convert.UnsupportedFormatRejected` | backend/src/index.js:21-61 | with both fields present, the response is 400 `Unsupported format` if and only if `format` is none of the five labels |
| `Convert.RejectionRunsNoGenerator` | backend/src/index.js:16-61 | a 400 response is the same whatever the clock and whatever the libraries do: no generator runs before validation and dispatch succeed |
| `Convert.OnlySelectedGeneratorMatters` | backend/src/index.js:21-62 | runtimes that agree on the engine's message for a `null` body and on what the selected format's generator returns for this request's `content` give the same response; a body that never reaches the switch needs no generator agreement |
| `Convert.SuccessResponse` | backend/src/index.js:21-69 | the response is a download with format `f`'s MIME type, `attachment; filename="result-<sanitised ts>.<tag>"` and bytes `b` if and only if the request is valid, `format` is `f`'s label and `f`'s generator returned `b` |
| `Convert.DownloadHeadersAgree` | backend/src/index.js:64-68 | every download's `Content-Type` and file extension name the same format, the one the request selected |
| `Convert.FailuresAreServerErrors` | backend/src/index.js:13-72 | the status is 500 if and only if body parsing threw, the body was `null`, or the selected generator threw; in each of the three cases the error is that exception's message |
| `Download.IndexOf` | frontend/script.js:70 | the first occurrence of a pattern at or after a position, or none |
| `Download.FilenameFromHeaderAsWritten` | frontend/script.js:70 | the client's regular expression as written; a capture is never empty |
| `Download.AsWrittenKeepsQuote` | frontend/script.js:70 | for every name the handler sends, the client as written extracts that name followed by a `"` |
| `Download.FilenameFromHeader` | frontend/script.js:70 | the corrected extraction; a capture is never empty |
| `Download.HeaderRoundTrip` | frontend/script.js:70 | the corrected extraction returns exactly the non-empty name written into `attachment; filename="…"` |
| `Download.ClientRecoversFileName` | frontend/script.js:69-70 | the name the corrected client reads for a format and timestamp is the handler's file name, and it parses back to the sanitised timestamp and the format |
| `Download.ClientRecoversResponseName` | frontend/script.js:69-70 | from any successful response whose `Content-Disposition` the client can read, the corrected client reads a name whose extension's format is the one the `Content-Type` names |

## Left out

- Library encoders (`Packer.toBuffer`, ExcelJS `writeBuffer`, pdf-lib, `MarkdownIt().render`, `Buffer.from`; backend/src/index.js:23-26, 32-35, 41-44, 50, 56): these are foreign code, so each is an opaque `Runtime` function that returns bytes or a thrown message. The bytes they produce (including the HTML that the `md` branch labels as Markdown) are not modelled.
- The clock (`new Date().toISOString()`, backend/src/index.js:18): the raw timestamp is an argument, so the model does not assume it is well-formed ISO-8601.
- Convert.Handle: building the `Response` at backend/src/index.js:64 throws for a header value with NUL, CR or LF, or a character above U+00FF, which would turn a download into a 500. `toISOString()` never produces such a timestamp, so the model leaves header validation out and returns the download for any timestamp.
- JSON body parsing (backend/src/index.js:15): it is an argument, either a value or the message thrown.
- The text of the TypeError for a `null` body depends on the JavaScript engine, so it is a `Runtime` field.
- Hono routing, the CORS middleware and the catch-all 404 (backend/src/index.js:2-11, 75-76) are not modelled.
- The CORS middleware (backend/src/index.js:11) sets no `exposeHeaders`. A page on another origin, as the client's separate `API_URL` host (frontend/script.js:1) makes it, therefore reads `null` for `Content-Disposition` (frontend/script.js:69) and falls back to `'download'`. The `Download` module covers only the case where the header is readable, such as a same-origin deployment or one that exposes the header.
- JavaScript numbers are modelled as `real`. A JSON body cannot produce `NaN` or a BigInt, so truthiness is `n != 0`.
- Property reads on a non-object body (a string, number, array or boolean) are modelled as yielding `undefined` for both fields. Inherited prototype properties are not modelled, and neither `format` nor `content` exists on those prototypes.
- A thrown value that is not an `Error` gives `err.message === undefined`. The model assumes every throw carries a string message.
- The rest of frontend/script.js is left out: DOM wiring, theme, file upload, `fetch`, and the `|| 'download'` fallback. Only the file-name extraction on line 70 is modelled.
- Download.FilenameFromHeaderAsWritten: the header is required to be a single line, which every HTTP header value is. Under that requirement the model ignores how the regular expression would handle line terminators.

## Findings

| source | as written | input that shows it | evidently intended | confidence | as-written member | corrected member |
|---|---|---|---|---|---|---|
| frontend/script.js:70 | `/filename="?(.+)"?/`: the greedy `(.+)` runs to the end of the header, so the trailing `"?` always matches nothing | the handler's header `attachment; filename="result-2024-05-01T10-20-30-400Z.txt"` (backend/src/index.js:67) yields `result-2024-05-01T10-20-30-400Z.txt"` whenever the client can read the header (not cross-origin as shipped, since backend/src/index.js:11 exposes no headers) | the name without its closing quote, as `/filename="?(.+?)"?$/` captures it | high; not executed | `Download.AsWrittenKeepsQuote` | `Download.HeaderRoundTrip` |
