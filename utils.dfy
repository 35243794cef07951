/** Short-URL construction and the empty branch of timestamp formatting (src/lib/utils.ts). */
module Utils {
  import opened Wrappers

  /** `baseUrl.replace(/\/$/, "")`: the regex is not global, so at most one slash goes. */
  function StripTrailingSlash(baseUrl: string): (r: string)
    ensures r == baseUrl || (r + "/" == baseUrl)
    ensures r + "/" == baseUrl <==> |baseUrl| > 0 && baseUrl[|baseUrl| - 1] == '/'
  {
    if |baseUrl| > 0 && baseUrl[|baseUrl| - 1] == '/' then baseUrl[..|baseUrl| - 1] else baseUrl
  }

  /** `buildShortUrl(code, baseUrl)`: the base without one trailing slash, then `/code`. */
  function BuildShortUrl(code: string, baseUrl: string): (r: string)
    ensures |r| > |code| && r[|r| - |code| - 1..] == "/" + code
    ensures var head := r[..|r| - |code| - 1]; head == baseUrl || head + "/" == baseUrl
  {
    StripTrailingSlash(baseUrl) + "/" + code
  }

  /** A base without a trailing slash is kept as it is. */
  lemma JoinWithoutSlash(code: string, baseUrl: string)
    requires |baseUrl| == 0 || baseUrl[|baseUrl| - 1] != '/'
    ensures BuildShortUrl(code, baseUrl) == baseUrl + "/" + code
  {
  }

  /** Exactly one trailing slash is dropped: "x/" joins as "x/c" and "x//" as "x//c". */
  lemma JoinDropsOneSlash(code: string, baseUrl: string)
    requires |baseUrl| > 0 && baseUrl[|baseUrl| - 1] == '/'
    ensures BuildShortUrl(code, baseUrl) == baseUrl + code
    ensures BuildShortUrl(code, baseUrl + "/") == baseUrl + "/" + code
  {
    assert (baseUrl + "/")[..|baseUrl|] == baseUrl;
  }

  /** A base and the same base with one slash appended give the same short URL. */
  lemma JoinIgnoresOneSlash(code: string, baseUrl: string)
    requires |baseUrl| == 0 || baseUrl[|baseUrl| - 1] != '/'
    ensures BuildShortUrl(code, baseUrl + "/") == BuildShortUrl(code, baseUrl)
  {
    assert (baseUrl + "/")[..|baseUrl|] == baseUrl;
  }

  /** The em dash the dashboard shows for a missing timestamp. */
  const EmDash: string := "\U{2014}"

  /** The literal in the source file: the UTF-8 bytes E2 80 94 of an em dash read back as
      Windows-1252, giving three characters. */
  const MisdecodedEmDash: string := "\U{00E2}\U{20AC}\U{201D}"

  /** `formatTimestamp` with the placeholder as it stands in the file. */
  function FormatTimestampAsWritten(value: Option<string>, render: string -> string): string {
    if value == None || value == Some("") then MisdecodedEmDash else render(value.value)
  }

  /** `null` and `""` both show the placeholder, which is not the intended em dash. */
  lemma PlaceholderIsMisdecoded(render: string -> string)
    ensures FormatTimestampAsWritten(None, render) == FormatTimestampAsWritten(Some(""), render)
    ensures |FormatTimestampAsWritten(None, render)| == 3
    ensures FormatTimestampAsWritten(None, render) != EmDash
  {
  }

  /** `formatTimestamp(value)`: a placeholder for the falsy values `null` and `""`; any other
      value goes to the locale formatter `render`. */
  function FormatTimestamp(value: Option<string>, render: string -> string): (r: string)
    ensures value == None || value == Some("") ==> r == EmDash && |r| == 1
    ensures value.Some? && value.value != "" ==> r == render(value.value)
  {
    if value == None || value == Some("") then EmDash else render(value.value)
  }
}
