/**
 * `createLinkSchema` (src/lib/validators.ts) as a function from a request body to either
 * the validated input or zod's flattened field errors.  zod's `.url()` is the abstract
 * predicate `isUrl`; `.trim()` is JavaScript's `String.prototype.trim`.
 */
module Validators {
  import opened Wrappers
  import opened Code

  /** One field of the JSON body: missing, a string, or another JSON type (named as zod names it). */
  datatype JsonValue = Absent | JsonString(s: string) | JsonOther(typeName: string)

  /** The parsed JSON body: an object with the two fields the schema reads, or anything else. */
  datatype Body = JsonObject(url: JsonValue, code: JsonValue) | NotAnObject(typeName: string)

  /** `parsed.error.flatten().fieldErrors`, one message list per field. */
  datatype FieldErrors = FieldErrors(url: seq<string>, code: seq<string>)

  /** `CreateLinkInput`: the url, and the code when one was given. */
  datatype CreateLinkInput = CreateLinkInput(url: string, code: Option<string>)

  const UrlRequiredMessage: string := "URL is required"
  const UrlInvalidMessage: string := "Enter a valid URL (include http/https)"
  const CodeShapeMessage: string := "Code must be 6-8 letters or numbers"
  const RequiredMessage: string := "Required"
  const InvalidUnionMessage: string := "Invalid input"

  /** ECMAScript WhiteSpace and LineTerminator code points, which `trim` removes. */
  predicate IsJsWhitespace(c: char) {
    || c == '\t' || c == '\n' || c == '\U{000B}' || c == '\U{000C}' || c == '\r' || c == ' '
    || c == '\U{00A0}' || c == '\U{1680}' || ('\U{2000}' <= c <= '\U{200A}')
    || c == '\U{2028}' || c == '\U{2029}' || c == '\U{202F}' || c == '\U{205F}' || c == '\U{3000}'
    || c == '\U{FEFF}'
  }

  /** Every character of `s` is whitespace. */
  predicate AllWhitespace(s: string) {
    forall k :: 0 <= k < |s| ==> IsJsWhitespace(s[k])
  }

  /** The number of whitespace characters `s` starts with. */
  function Leading(s: string): (n: nat)
    ensures n <= |s|
    ensures forall k :: 0 <= k < n ==> IsJsWhitespace(s[k])
    ensures n < |s| ==> !IsJsWhitespace(s[n])
  {
    if |s| > 0 && IsJsWhitespace(s[0]) then 1 + Leading(s[1..]) else 0
  }

  /** The number of whitespace characters `s` ends with. */
  function Trailing(s: string): (n: nat)
    ensures n <= |s|
    ensures forall k :: |s| - n <= k < |s| ==> IsJsWhitespace(s[k])
    ensures n < |s| ==> !IsJsWhitespace(s[|s| - 1 - n])
  {
    if |s| > 0 && IsJsWhitespace(s[|s| - 1]) then 1 + Trailing(s[..|s| - 1]) else 0
  }

  /** `String.prototype.trim`: the part between the leading and the trailing whitespace. */
  function Trim(s: string): (t: string)
    ensures |t| > 0 ==> !IsJsWhitespace(t[0]) && !IsJsWhitespace(t[|t| - 1])
    ensures AllWhitespace(s) ==> t == ""
    ensures |s| > 0 && !IsJsWhitespace(s[0]) && !IsJsWhitespace(s[|s| - 1]) ==> t == s
  {
    var a := Leading(s);
    if a == |s| then "" else s[a..|s| - Trailing(s)]
  }

  /** `trim` cuts whitespace only, and only from the two ends: the result is the slice
      `s[a..b]` of the input, and everything before `a` and from `b` on is whitespace. */
  lemma TrimmedSlice(s: string) returns (a: nat, b: nat)
    ensures a <= b <= |s| && Trim(s) == s[a..b]
    ensures AllWhitespace(s[..a]) && AllWhitespace(s[b..])
  {
    a := Leading(s);
    if a == |s| {
      b := |s|;
      assert s[..a] == s;
    } else {
      b := |s| - Trailing(s);
      assert forall k :: 0 <= k < |s[b..]| ==> s[b..][k] == s[b + k];
    }
  }

  /** The `url` field: a string, at least one character (`.min(1)`), and a URL; zod keeps
      checking after a failed check, so both messages can appear. */
  function ValidateUrl(v: JsonValue, isUrl: string -> bool): (r: Result<string, seq<string>>)
    ensures r.Success? <==> v.JsonString? && v.s != "" && isUrl(v.s)
    ensures r.Success? ==> r.value == v.s
    ensures v.Absent? ==> r == Failure([RequiredMessage])
    ensures v.JsonString? && v.s == "" ==> r.Failure? && UrlRequiredMessage in r.error
    ensures v.JsonString? && !isUrl(v.s) ==> r.Failure? && UrlInvalidMessage in r.error
  {
    match v
    case Absent => Failure([RequiredMessage])
    case JsonOther(t) => Failure(["Expected string, received " + t])
    case JsonString(u) =>
      var errors := (if |u| < 1 then [UrlRequiredMessage] else []) + (if isUrl(u) then [] else [UrlInvalidMessage]);
      if errors == [] then Success(u) else Failure(errors)
  }

  /** The `code` field: `string().trim().regex(...).optional()` or the literal `""`.
      A union returns its first valid branch, else the first branch that got past its type check. */
  function ValidateCode(v: JsonValue): (r: Result<Option<string>, seq<string>>)
    ensures r.Success? <==> v.Absent? || (v.JsonString? && (v.s == "" || IsValidCode(Trim(v.s))))
    ensures r.Success? && r.value.Some? ==>
      v.JsonString? && r.value.value == Trim(v.s) && IsValidCode(r.value.value)
    ensures r.Success? && r.value.None? ==> v.Absent? || v == JsonString("")
    ensures r.Failure? ==> r.error == (if v.JsonOther? then [InvalidUnionMessage] else [CodeShapeMessage])
  {
    match v
    case Absent => Success(None)
    case JsonOther(_) => Failure([InvalidUnionMessage])
    case JsonString(s) =>
      if IsValidCode(Trim(s)) then Success(Some(Trim(s)))
      else if s == "" then Success(None)
      else Failure([CodeShapeMessage])
  }

  /** `createLinkSchema.safeParse(body)`. */
  function Validate(body: Body, isUrl: string -> bool): (r: Result<CreateLinkInput, FieldErrors>)
    ensures r.Success? <==>
      body.JsonObject? && ValidateUrl(body.url, isUrl).Success? && ValidateCode(body.code).Success?
    ensures r.Success? ==>
      r.value.url == ValidateUrl(body.url, isUrl).value && r.value.code == ValidateCode(body.code).value
  {
    match body
    case NotAnObject(_) => Failure(FieldErrors([], []))
    case JsonObject(url, code) =>
      var u := ValidateUrl(url, isUrl);
      var c := ValidateCode(code);
      if u.Success? && c.Success? then Success(CreateLinkInput(u.value, c.value))
      else Failure(FieldErrors(if u.Failure? then u.error else [], if c.Failure? then c.error else []))
  }

  /** A missing `code` and a literal `""` both validate to "no code". */
  lemma AbsentOrEmptyCode()
    ensures ValidateCode(Absent) == Success(None)
    ensures ValidateCode(JsonString("")) == Success(None)
  {
    assert Trim("") == "";
  }

  /** A present, non-empty `code` is accepted exactly when its trimmed form has the code
      shape, and the accepted value is the trimmed string. */
  lemma CodeAcceptedIffTrimmedValid(s: string)
    requires s != ""
    ensures ValidateCode(JsonString(s)).Success? <==> IsValidCode(Trim(s))
    ensures ValidateCode(JsonString(s)).Success? ==> ValidateCode(JsonString(s)).value == Some(Trim(s))
    ensures ValidateCode(JsonString(s)).Failure? ==> ValidateCode(JsonString(s)).error == [CodeShapeMessage]
  {
  }

  /** Whitespace such as "   " is rejected: it trims to "", which fails the regex, and
      the `""` literal branch sees the untrimmed input. */
  lemma WhitespaceCodeRejected(s: string)
    requires s != "" && AllWhitespace(s)
    ensures ValidateCode(JsonString(s)) == Failure([CodeShapeMessage])
  {
  }

  /** Every accepted code passes `isValidCode` and carries no surrounding whitespace. */
  lemma AcceptedCodeIsValid(body: Body, isUrl: string -> bool)
    requires Validate(body, isUrl).Success? && Validate(body, isUrl).value.code.Some?
    ensures IsValidCode(Validate(body, isUrl).value.code.value)
    ensures body.code.JsonString? && Validate(body, isUrl).value.code.value == Trim(body.code.s)
  {
  }

  /** An empty url is rejected with "URL is required", whatever the code field holds. */
  lemma EmptyUrlRejected(code: JsonValue, isUrl: string -> bool)
    ensures var r := Validate(JsonObject(JsonString(""), code), isUrl);
      r.Failure? && UrlRequiredMessage in r.error.url
  {
  }
}
