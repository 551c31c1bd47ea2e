/**
 * How the browser client reads the download name back out of the
 * `Content-Disposition` header: `cd?.match(/filename="?(.+)"?/)?.[1] || 'download'`.
 * Because `(.+)` is greedy, the optional `"?` after it always matches the
 * empty string and the closing quote ends up in the name. The client as
 * written is modelled next to a corrected extractor, equivalent to
 * `/filename="?(.+?)"?$/`, which returns exactly the name the handler put in
 * the header.
 */
module Download {
  import opened Wrappers
  import opened JsValues
  import opened Timestamp
  import opened Formats
  import opened Convert

  const Key: string := "filename="

  /** The characters a regular-expression `.` does not match. */
  predicate LineTerminator(c: char) {
    c == '\n' || c == '\r' || c == '\U{2028}' || c == '\U{2029}'
  }

  /** A single-line string, as every HTTP header value is. */
  predicate SingleLine(s: string) {
    forall i :: 0 <= i < |s| ==> !LineTerminator(s[i])
  }

  /** Whether `pat` occurs in `s` at position `k`. */
  predicate OccursAt(s: string, pat: string, k: nat) {
    k + |pat| <= |s| && s[k..k + |pat|] == pat
  }

  /** The first occurrence of `pat` in `s` at or after `from`. */
  function IndexOf(s: string, pat: string, from: nat): (r: Option<nat>)
    decreases |s| - from
    ensures r.Some? ==> from <= r.value && OccursAt(s, pat, r.value)
    ensures forall j :: from <= j && (r.None? || j < r.value) ==> !OccursAt(s, pat, j)
  {
    if from + |pat| > |s| then None
    else if s[from..from + |pat|] == pat then Some(from)
    else IndexOf(s, pat, from + 1)
  }

  /** No occurrence can start before the first position holding the pattern's first character. */
  lemma {:induction false} IndexOfSkips(s: string, pat: string, from: nat, k: nat)
    requires pat != [] && from <= k
    requires forall j :: from <= j < k ==> j < |s| && s[j] != pat[0]
    requires OccursAt(s, pat, k)
    ensures IndexOf(s, pat, from) == Some(k)
    decreases k - from
  {
    if from < k {
      assert s[from..from + |pat|][0] == s[from];
      IndexOfSkips(s, pat, from + 1, k);
    }
  }

  /**
   * The client as written: at the first `filename=`, an optional opening
   * quote, then everything to the end of the header. When nothing follows
   * the quote the regular expression backtracks and captures the quote.
   */
  function FilenameFromHeaderAsWritten(cd: string): (r: Option<string>)
    requires SingleLine(cd)
    ensures r.Some? ==> r.value != []
  {
    match IndexOf(cd, Key, 0)
    case None => None
    case Some(k) =>
      var rest := cd[k + |Key|..];
      if rest == [] then None
      else if rest[0] == '"' && |rest| >= 2 then Some(rest[1..])
      else Some(rest)
  }

  /**
   * The corrected client: as above, then one closing quote is dropped when
   * something is left before it.
   */
  function FilenameFromHeader(cd: string): (r: Option<string>)
    requires SingleLine(cd)
    ensures r.Some? ==> r.value != []
  {
    match FilenameFromHeaderAsWritten(cd)
    case None => None
    case Some(v) => if |v| >= 2 && v[|v| - 1] == '"' then Some(v[..|v| - 1]) else Some(v)
  }

  /** The handler's header names its file right after `attachment; `. */
  lemma KeyPosition(name: string)
    ensures IndexOf(Disposition(name), Key, 0) == Some(12)
    ensures Disposition(name)[12 + |Key|..] == "\"" + name + "\""
  {
    var cd := Disposition(name);
    assert cd[12..12 + |Key|] == Key;
    IndexOfSkips(cd, Key, 0, 12);
  }

  /** As written, the client keeps the closing quote of every name the handler sends. */
  lemma {:induction false} AsWrittenKeepsQuote(name: string)
    requires SingleLine(name)
    ensures SingleLine(Disposition(name))
    ensures FilenameFromHeaderAsWritten(Disposition(name)) == Some(name + "\"")
  {
    var cd := Disposition(name);
    forall i | 0 <= i < |cd| ensures !LineTerminator(cd[i]) {
      if 22 <= i < 22 + |name| {
        assert cd[i] == name[i - 22];
      }
    }
    KeyPosition(name);
    assert ("\"" + name + "\"")[1..] == name + "\"";
  }

  /** The corrected client recovers every non-empty single-line name exactly. */
  lemma {:induction false} HeaderRoundTrip(name: string)
    requires name != [] && SingleLine(name)
    ensures SingleLine(Disposition(name))
    ensures FilenameFromHeader(Disposition(name)) == Some(name)
  {
    AsWrittenKeepsQuote(name);
    assert (name + "\"")[..|name|] == name;
  }

  /** A download name built from a single-line timestamp is single-line. */
  lemma FileNameSingleLine(f: Format, rawTimestamp: string)
    requires SingleLine(rawTimestamp)
    ensures SingleLine(FileName(f, Sanitize(rawTimestamp)))
  {
  }

  /**
   * The name the corrected client reads from the header of a download of
   * format `f` parses back to the sanitised request time and to `f`.
   */
  lemma ClientRecoversFileName(f: Format, rawTimestamp: string)
    requires SingleLine(rawTimestamp)
    ensures SingleLine(Disposition(FileName(f, Sanitize(rawTimestamp))))
    ensures FilenameFromHeader(Disposition(FileName(f, Sanitize(rawTimestamp)))) == Some(FileName(f, Sanitize(rawTimestamp)))
    ensures ParseFileName(FileName(f, Sanitize(rawTimestamp))) == Some((Sanitize(rawTimestamp), f))
  {
    var ts := Sanitize(rawTimestamp);
    FileNameSingleLine(f, rawTimestamp);
    HeaderRoundTrip(FileName(f, ts));
    FileNameRoundTrip(f, ts);
  }

  /**
   * When the client can read the response's `Content-Disposition` (the
   * server's CORS setup exposes no headers to another origin), the
   * corrected client reads from a successful response the
   * name of the selected format's download, and that name parses back to
   * the sanitised request time and to the format whose MIME type the
   * response carries.
   */
  lemma ClientRecoversResponseName(body: Result<JsValue, string>, rawTimestamp: string, rt: Runtime)
    requires Handle(body, rawTimestamp, rt).FileResponse? && SingleLine(rawTimestamp)
    ensures SelectedFormat(body).Some?
    ensures var r, f := Handle(body, rawTimestamp, rt), SelectedFormat(body).value;
      && r.contentType == Mime(f)
      && SingleLine(r.contentDisposition)
      && FilenameFromHeader(r.contentDisposition) == Some(FileName(f, Sanitize(rawTimestamp)))
      && ParseFileName(FileName(f, Sanitize(rawTimestamp))) == Some((Sanitize(rawTimestamp), f))
  {
    DownloadHeadersAgree(body, rawTimestamp, rt);
    ClientRecoversFileName(SelectedFormat(body).value, rawTimestamp);
  }
}
