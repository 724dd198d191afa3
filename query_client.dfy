/** The request helpers of client/src/lib/queryClient.ts: where a request
    goes, what it carries, and how a response becomes a value or an error.
    `fetch`, the abort timer and JSON parsing are not part of this model; a
    response is given as its status, status text and body text, and
    `API_URL` is the `apiUrl` parameter. */
module QueryClient {
  import opened Outcomes
  import opened Text

  /** `url.startsWith('http') ? url : API_URL + url`: the given URL always
      ends the resolved one. */
  function FullUrl(apiUrl: string, url: string): (r: string)
    ensures |url| <= |r| && r[|r| - |url|..] == url
  {
    if StartsWith(url, "http") then url
    else
      assert (apiUrl + url)[|apiUrl|..] == url;
      apiUrl + url
  }

  /** An absolute URL is used as it is and any other is put after the API
      base; resolving again changes nothing exactly when the first result
      is absolute or the base is empty, as `API_URL` is by default. */
  lemma {:induction false} FullUrlStable(apiUrl: string, url: string)
    ensures StartsWith(url, "http") ==> FullUrl(apiUrl, url) == url
    ensures !StartsWith(url, "http") ==> FullUrl(apiUrl, url) == apiUrl + url
    ensures StartsWith(apiUrl, "http") ==> StartsWith(FullUrl(apiUrl, url), "http")
    ensures FullUrl(apiUrl, FullUrl(apiUrl, url)) == FullUrl(apiUrl, url)
        <==> StartsWith(FullUrl(apiUrl, url), "http") || apiUrl == ""
  {
    var r := FullUrl(apiUrl, url);
    if !StartsWith(url, "http") && StartsWith(apiUrl, "http") {
      assert r[..4] == apiUrl[..4];
    }
    if !StartsWith(r, "http") && apiUrl != "" {
      assert |FullUrl(apiUrl, r)| > |r|;
    }
  }

  /** A response as the helpers see it. */
  datatype HttpResponse = HttpResponse(status: nat, statusText: string, body: string)

  /** `res.ok`: a status in the range 200-299. */
  predicate IsOk(res: HttpResponse) {
    200 <= res.status <= 299
  }

  /** The message `throwIfResNotOk` throws: the status, ": ", and the body
      text, or the status text when the body is empty. The status can be
      read back from the digits the message starts with. */
  function ErrorMessage(res: HttpResponse): (r: string)
    ensures DecimalValue(LeadingDigits(r)) == res.status
    ensures var d := DecimalString(res.status);
      |d| <= |r| && r[|d|..] == ": " + (if res.body == "" then res.statusText else res.body)
  {
    var d := DecimalString(res.status);
    var text := if res.body == "" then res.statusText else res.body;
    assert !IsDigit((": " + text)[0]);
    LeadingDigitsOf(d, ": " + text);
    DecimalRoundTrip(res.status);
    assert (d + (": " + text))[|d|..] == ": " + text;
    d + (": " + text)
  }

  /** `throwIfResNotOk` and what `apiRequest` then returns: the response
      itself when it is ok, its error message otherwise. */
  function ApiResult(res: HttpResponse): (r: Result<HttpResponse, string>)
    ensures r.Success? <==> IsOk(res)
    ensures r.Success? ==> r.value == res
    ensures r.Failure? ==> r.error == ErrorMessage(res)
  {
    if IsOk(res) then Success(res) else Failure(ErrorMessage(res))
  }

  /** The longest run of digits the text starts with. */
  function LeadingDigits(s: string): (r: string)
    ensures |r| <= |s| && r == s[..|r|]
    ensures forall i :: 0 <= i < |r| ==> IsDigit(r[i])
  {
    if s == [] || !IsDigit(s[0]) then "" else [s[0]] + LeadingDigits(s[1..])
  }

  lemma {:induction false} LeadingDigitsOf(digits: string, rest: string)
    requires forall i :: 0 <= i < |digits| ==> IsDigit(digits[i])
    requires rest == [] || !IsDigit(rest[0])
    ensures LeadingDigits(digits + rest) == digits
    decreases |digits|
  {
    if digits != [] {
      LeadingDigitsOf(digits[1..], rest);
      assert (digits + rest)[1..] == digits[1..] + rest;
    } else {
      assert digits + rest == rest;
    }
  }

  /** The `data` argument of `apiRequest`, as far as its truthiness goes.
      Numbers are integers here. */
  datatype Payload =
    | Undefined
    | NullValue
    | BoolValue(b: bool)
    | NumberValue(n: int)
    | StringValue(s: string)
    | ObjectValue

  /** JavaScript truthiness. */
  predicate Truthy(data: Payload) {
    match data
    case Undefined => false
    case NullValue => false
    case BoolValue(b) => b
    case NumberValue(n) => n != 0
    case StringValue(s) => s != ""
    case ObjectValue => true
  }

  const JsonHeader: (string, string) := ("Content-Type", "application/json")

  /** What `apiRequest` hands to `fetch`; `verb` is its `method` argument. */
  datatype Request = Request(url: string, verb: string, headers: seq<(string, string)>, body: Option<Payload>)

  /** The JSON content type and the body are sent only for truthy data. */
  function BuildRequest(apiUrl: string, verb: string, url: string, data: Payload): (r: Request)
    ensures r.url == FullUrl(apiUrl, url) && r.verb == verb
    ensures r.headers != [] <==> Truthy(data)
    ensures r.headers != [] ==> r.headers == [JsonHeader]
    ensures r.body.Some? <==> Truthy(data)
    ensures r.body.Some? ==> r.body.value == data
  {
    Request(FullUrl(apiUrl, url), verb,
            if Truthy(data) then [JsonHeader] else [],
            if Truthy(data) then Some(data) else None)
  }

  datatype UnauthorizedBehavior = ReturnNull | Throw

  /** What the query function settles with: null, the response body to be
      parsed as JSON, or the error it throws. */
  datatype QueryOutcome = NullResult | Body(text: string) | Error(message: string)

  /** The query function returned by `getQueryFn`, after `fetch`. */
  function QueryResult(on401: UnauthorizedBehavior, res: HttpResponse): (r: QueryOutcome)
    ensures r.NullResult? <==> on401 == ReturnNull && res.status == 401
    ensures r.Error? <==> !IsOk(res) && !(on401 == ReturnNull && res.status == 401)
    ensures r.Error? ==> r.message == ErrorMessage(res)
    ensures r.Body? ==> IsOk(res) && r.text == res.body
  {
    if on401 == ReturnNull && res.status == 401 then NullResult
    else
      match ApiResult(res)
      case Success(ok) => Body(ok.body)
      case Failure(message) => Error(message)
  }

  /** The default query function is built with `on401: "throw"`. */
  const DefaultOn401: UnauthorizedBehavior := Throw

  /** With the default behaviour a 401 is an error like any other failed
      status, and its message starts with "401: ". */
  lemma {:induction false} DefaultThrowsOn401(res: HttpResponse)
    requires res.status == 401
    ensures QueryResult(DefaultOn401, res).Error?
    ensures StartsWith(QueryResult(DefaultOn401, res).message, "401: ")
  {
    Decimal401();
  }

  lemma {:induction false} Decimal401()
    ensures DecimalString(401) == "401"
  {
    assert DecimalString(4) == "4";
    assert DecimalString(40) == "40";
  }
}
