/**
 * The five output formats the handler's `switch` accepts, the fixed MIME
 * type of each, and the download file name built from the format and the
 * sanitised timestamp.
 */
module Formats {
  import opened Wrappers
  import opened Timestamp

  datatype Format = Docx | Xlsx | Pdf | Md | Txt

  /** The `case` label of each branch; it is also the file extension. */
  function Tag(f: Format): (r: string)
    ensures r != [] && IsSafe(r)
  {
    match f
    case Docx => "docx"
    case Xlsx => "xlsx"
    case Pdf => "pdf"
    case Md => "md"
    case Txt => "txt"
  }

  /** Strict comparison of the requested format against the five labels; anything else is unsupported. */
  function ParseFormat(s: string): (r: Option<Format>)
    ensures r.Some? ==> Tag(r.value) == s
    ensures r.None? ==> forall f: Format :: Tag(f) != s
  {
    if s == "docx" then Some(Docx)
    else if s == "xlsx" then Some(Xlsx)
    else if s == "pdf" then Some(Pdf)
    else if s == "md" then Some(Md)
    else if s == "txt" then Some(Txt)
    else None
  }

  /** Every label is recognised as its own format, so the dispatch is total over the five tags. */
  lemma ParseTag(f: Format)
    ensures ParseFormat(Tag(f)) == Some(f)
  {
  }

  const Utf8: string := "; charset=utf-8"

  /** The `Content-Type` each branch sets: exactly the two text formats declare UTF-8. */
  function Mime(f: Format): (r: string)
    ensures |r| >= |Utf8| && (r[|r| - |Utf8|..] == Utf8 <==> f == Md || f == Txt)
  {
    match f
    case Docx =>
      var r := "application/vnd.openxmlformats-officedocument.wordprocessingml.document";
      assert r[|r| - 1] != Utf8[|Utf8| - 1];
      r
    case Xlsx =>
      var r := "application/vnd.openxmlformats-officedocument.spreadsheetml.sheet";
      assert r[|r| - 1] != Utf8[|Utf8| - 1];
      r
    case Pdf =>
      var r := "application/pdf";
      assert r[|r| - 1] != Utf8[|Utf8| - 1];
      r
    case Md => "text/markdown" + Utf8
    case Txt => "text/plain" + Utf8
  }

  /** No two formats share a MIME type, so the type a client receives identifies the branch. */
  lemma MimeInjective(f: Format, g: Format)
    requires Mime(f) == Mime(g)
    ensures f == g
  {
  }

  const Prefix: string := "result-"

  /** `result-${ts}.${ext}`, the name every branch gives the download. */
  function FileName(f: Format, ts: string): string {
    Prefix + ts + "." + Tag(f)
  }

  /** The position of the last occurrence of `c` in `s`, if any. */
  function LastIndexOf(s: string, c: char): (r: Option<nat>)
    ensures r.Some? ==>
      r.value < |s| && s[r.value] == c && forall j :: r.value < j < |s| ==> s[j] != c
    ensures r.None? ==> forall j :: 0 <= j < |s| ==> s[j] != c
  {
    if s == [] then None
    else if s[|s| - 1] == c then Some(|s| - 1)
    else LastIndexOf(s[..|s| - 1], c)
  }

  /**
   * Reads a download name back into its timestamp and format: the name must
   * start with the prefix, and the text after its last `.` must be one of the
   * five labels.
   */
  function ParseFileName(name: string): (r: Option<(string, Format)>)
    ensures r.Some? ==> FileName(r.value.1, r.value.0) == name
  {
    if |name| < |Prefix| || name[..|Prefix|] != Prefix then None
    else
      var rest := name[|Prefix|..];
      match LastIndexOf(rest, '.')
      case None => None
      case Some(k) =>
        match ParseFormat(rest[k + 1..])
        case None => None
        case Some(f) =>
          assert name == Prefix + rest;
          assert rest == rest[..k] + "." + rest[k + 1..];
          Some((rest[..k], f))
  }

  /** A string without `.`, so the last `.` of a file name is the one before its extension. */
  predicate NoDot(s: string) {
    forall i :: 0 <= i < |s| ==> s[i] != '.'
  }

  /**
   * A file name built from a timestamp without `.` reads back as that
   * timestamp and format: the name determines both.
   */
  lemma {:induction false} FileNameRoundTrip(f: Format, ts: string)
    requires NoDot(ts)
    ensures ParseFileName(FileName(f, ts)) == Some((ts, f))
  {
    var name := FileName(f, ts);
    var rest := ts + "." + Tag(f);
    assert name[..|Prefix|] == Prefix;
    assert name[|Prefix|..] == rest;
    forall j | |ts| < j < |rest| ensures rest[j] != '.' {
      assert rest[j] == Tag(f)[j - |ts| - 1];
    }
    assert rest[|ts|] == '.';
    assert LastIndexOf(rest, '.') == Some(|ts|);
    assert rest[|ts| + 1..] == Tag(f);
    ParseTag(f);
    assert rest[..|ts|] == ts;
  }

  /** Two requests with different dot-free timestamps or different formats never get the same file name. */
  lemma FileNameInjective(f: Format, ts: string, g: Format, ts': string)
    requires NoDot(ts) && NoDot(ts')
    requires FileName(f, ts) == FileName(g, ts')
    ensures f == g && ts == ts'
  {
    FileNameRoundTrip(f, ts);
    FileNameRoundTrip(g, ts');
  }

  /** The last three characters of a file name of format `f`. */
  function Ending(f: Format): string {
    match f
    case Docx => "ocx"
    case Xlsx => "lsx"
    case Pdf => "pdf"
    case Md => ".md"
    case Txt => "txt"
  }

  /** Every file name of format `f` ends with `Ending(f)`. */
  lemma FileNameEnding(f: Format, ts: string)
    ensures |FileName(f, ts)| >= 3 && FileName(f, ts)[|FileName(f, ts)| - 3..] == Ending(f)
  {
  }

  /**
   * A file name determines its format whatever the timestamps are: two
   * names of different formats always differ in their last three characters.
   */
  lemma FileNameDeterminesFormat(f: Format, ts: string, g: Format, ts': string)
    requires FileName(f, ts) == FileName(g, ts')
    ensures f == g
  {
    FileNameEnding(f, ts);
    FileNameEnding(g, ts');
  }

  /**
   * The shape of a download name built from a sanitised timestamp: it starts
   * with `result-`, contains no `:`, and its only `.` is the one before the
   * extension, which is the format's label.
   */
  lemma FileNameShape(f: Format, rawTs: string)
    ensures var name := FileName(f, Sanitize(rawTs));
      && name[..|Prefix|] == Prefix
      && name[|name| - |Tag(f)|..] == Tag(f)
      && (forall i :: 0 <= i < |name| ==> name[i] != ':')
      && (forall i :: 0 <= i < |name| ==> (name[i] == '.' <==> i == |name| - |Tag(f)| - 1))
  {
    var ts := Sanitize(rawTs);
    var name := FileName(f, ts);
    forall i | 0 <= i < |name|
      ensures name[i] != ':'
      ensures name[i] == '.' <==> i == |name| - |Tag(f)| - 1
    {
      if i < |Prefix| {
        assert name[i] == Prefix[i];
      } else if i < |Prefix| + |ts| {
        assert name[i] == ts[i - |Prefix|];
      } else if i > |Prefix| + |ts| {
        assert name[i] == Tag(f)[i - |Prefix| - |ts| - 1];
      }
    }
  }
}
