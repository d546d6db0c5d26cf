/**
 * The decisions of the Python connection test around its two HTTP calls: how transport
 * failures are re-raised, how the member-list response is judged, and how `main` turns
 * whatever was raised into an exit code and a banner line.
 *
 * The HTTP calls themselves are inputs: a `TokenCall` says how `requests.post` to the OAuth
 * endpoint went, an `ApiCall` how `requests.get` of the members list went.
 */
module PyConnection {
  import opened Wrappers
  import opened Text
  import opened ExitCodes
  import opened PyErrors
  import opened PyLoader

  // ----- validate_response -----

  const NameKey := "\"name\""
  const EmailKey := "\"email\""

  /** The response is accepted exactly when it is a 200 whose body mentions both attributes. */
  function ValidateResponse(statusCode: int, responseBody: string): (valid: bool)
    ensures valid <==>
              && statusCode == 200
              && (exists i :: OccursAt(responseBody, NameKey, i))
              && (exists j :: OccursAt(responseBody, EmailKey, j))
  {
    ContainsIsOccurrence(responseBody, NameKey);
    ContainsIsOccurrence(responseBody, EmailKey);
    statusCode == 200 && Contains(responseBody, NameKey) && Contains(responseBody, EmailKey)
  }

  /** The message `validate_response` prints when it rejects a response. */
  function ValidationMessage(statusCode: int, responseBody: string): string
  {
    if statusCode != 200 then "Status code: " + IntToString(statusCode) + " Response body: " + responseBody
    else "Response does not contain required attributes."
  }

  // ----- the HTTP calls, as inputs -----

  datatype HttpResponse = HttpResponse(statusCode: int, text: string)

  /** What `response.json()` did: raised, or produced a dictionary whose `access_token` entry is given. */
  datatype TokenBody = BodyRaised(err: PyError) | BodyParsed(accessToken: Option<string>)

  /**
   * How the token request went: `requests.post` raised, or it answered with a status, a text,
   * the message `raise_for_status` would raise for that status, and the parsed body.
   */
  datatype TokenCall =
    | PostRaised(err: PyError)
    | Responded(statusCode: int, text: string, statusMessage: string, body: TokenBody)

  /** How the members request went. */
  datatype ApiCall = GetRaised(err: PyError) | Got(statusCode: int, body: string)

  /** `raise_for_status()` raises for client and server errors. */
  predicate FailingStatus(statusCode: int)
  {
    400 <= statusCode < 600
  }

  // ----- the re-raising in get_access_token -----

  /** The prefixes the wrappers put before a transport error's text. */
  const SslTag := "SSL" + " certificate error: "
  const ConnectionTag := "Connection" + " error: "
  const TimeoutTag := "Request " + "timeout" + ": "

  /** What Python 3.11 and later say when the `HTTP` branch reads `response` that was never bound. */
  const UnboundResponseMessage := "cannot access local variable 'response' where it is not associated with a value"

  /**
   * The `except` block of `get_access_token` exactly as written: `response` is only bound when
   * `requests.post` returned, so the `HTTP` branch fails with `UnboundLocalError` otherwise.
   */
  function WrapTokenErrorAsWritten(e: PyError, response: Option<HttpResponse>): (r: PyError)
    ensures r.kind == PlainException || r == e || r == PyError(OtherErr, UnboundResponseMessage)
  {
    if e.kind == RequestsErr then
      if Contains(e.text, "SSL") then PyError(PlainException, SslTag + e.text)
      else if Contains(e.text, "Connection") then PyError(PlainException, ConnectionTag + e.text)
      else if Contains(e.text, "Timeout") then PyError(PlainException, TimeoutTag + e.text)
      else if Contains(e.text, "HTTP") then
        match response
        case Some(r) => PyError(PlainException, "HTTP error " + IntToString(r.statusCode) + ": " + r.text)
        case None => PyError(OtherErr, UnboundResponseMessage)
      else PyError(PlainException, "Request error: " + e.text)
    else if e.kind == JsonDecodeErr then PyError(PlainException, "Invalid JSON response: " + e.text)
    else e
  }

  /**
   * The same block with the evidently intended behaviour: with no response to report, an
   * error mentioning `HTTP` is reported like any other request error.
   */
  function WrapTokenError(e: PyError, response: Option<HttpResponse>): (r: PyError)
    ensures r.kind == PlainException || r == e
  {
    if e.kind == RequestsErr then
      if Contains(e.text, "SSL") then PyError(PlainException, SslTag + e.text)
      else if Contains(e.text, "Connection") then PyError(PlainException, ConnectionTag + e.text)
      else if Contains(e.text, "Timeout") then PyError(PlainException, TimeoutTag + e.text)
      else if Contains(e.text, "HTTP") && response.Some? then
        PyError(PlainException, "HTTP error " + IntToString(response.value.statusCode) + ": " + response.value.text)
      else PyError(PlainException, "Request error: " + e.text)
    else if e.kind == JsonDecodeErr then PyError(PlainException, "Invalid JSON response: " + e.text)
    else e
  }

  /** The re-raising of `test_api_connection`: the same tests, without the `HTTP` branch. */
  function WrapApiError(e: PyError): (r: PyError)
    ensures r.kind == PlainException || r == e
  {
    if e.kind == RequestsErr then
      if Contains(e.text, "SSL") then PyError(PlainException, SslTag + e.text)
      else if Contains(e.text, "Connection") then PyError(PlainException, ConnectionTag + e.text)
      else if Contains(e.text, "Timeout") then PyError(PlainException, TimeoutTag + e.text)
      else PyError(PlainException, "Request error: " + e.text)
    else e
  }

  /**
   * With the corrected token wrapper, every `requests` and JSON failure leaves the wrappers as
   * a plain `Exception`; other errors pass unchanged.
   */
  lemma WrappersRaisePlainExceptions(e: PyError, response: Option<HttpResponse>)
    ensures e.kind == RequestsErr || e.kind == JsonDecodeErr ==> WrapTokenError(e, response).kind == PlainException
    ensures e.kind != RequestsErr && e.kind != JsonDecodeErr ==> WrapTokenError(e, response) == e
    ensures e.kind == RequestsErr ==> WrapApiError(e).kind == PlainException
    ensures e.kind != RequestsErr ==> WrapApiError(e) == e
  {
  }

  /**
   * The token wrapper as written turns every `requests` and JSON failure into a plain
   * `Exception` except one: an error raised by `requests.post` itself whose text mentions
   * `HTTP` and none of `SSL`, `Connection`, `Timeout` becomes `UnboundLocalError`.
   */
  lemma AsWrittenWrapperRaises(e: PyError, response: Option<HttpResponse>)
    ensures var lost := && e.kind == RequestsErr && response.None? && Contains(e.text, "HTTP")
                        && !Contains(e.text, "SSL") && !Contains(e.text, "Connection") && !Contains(e.text, "Timeout");
      && (lost ==> WrapTokenErrorAsWritten(e, response) == PyError(OtherErr, UnboundResponseMessage))
      && (!lost && (e.kind == RequestsErr || e.kind == JsonDecodeErr) ==>
            WrapTokenErrorAsWritten(e, response).kind == PlainException)
    ensures e.kind != RequestsErr && e.kind != JsonDecodeErr ==> WrapTokenErrorAsWritten(e, response) == e
  {
  }

  /** The two versions of the token wrapper differ only when `requests.post` itself raised. */
  lemma WrapTokenVersionsAgreeWithResponse(e: PyError, r: HttpResponse)
    ensures WrapTokenErrorAsWritten(e, Some(r)) == WrapTokenError(e, Some(r))
  {
  }

  /** `get_access_token`: the token, or what it raises. */
  function GetAccessToken(call: TokenCall): (r: Result<string, PyError>)
    ensures r.Ok? ==> call.Responded? && r.value != ""
  {
    match call
    case PostRaised(e) => Err(WrapTokenError(e, None))
    case Responded(status, text, statusMessage, body) =>
      var response := Some(HttpResponse(status, text));
      if FailingStatus(status) then Err(WrapTokenError(PyError(RequestsErr, statusMessage), response))
      else match body
        case BodyRaised(e) => Err(WrapTokenError(e, response))
        case BodyParsed(token) =>
          if token.None? || token.value == "" then
            Err(WrapTokenError(PyError(ValueErr, TokenNotFound), response))
          else Ok(token.value)
  }

  /** A token comes back exactly when the response does not fail and carries a non-empty `access_token`, which is the one returned. */
  lemma TokenIssuedExactly(call: TokenCall)
    ensures GetAccessToken(call).Ok? <==>
              && call.Responded? && !FailingStatus(call.statusCode)
              && call.body.BodyParsed? && call.body.accessToken.Some? && call.body.accessToken.value != ""
    ensures GetAccessToken(call).Ok? ==> GetAccessToken(call).value == call.body.accessToken.value
  {
  }

  /** `test_api_connection`: the status and body, or what it raises. */
  function TestApiConnection(call: ApiCall): (r: Result<HttpResponse, PyError>)
    ensures r.Ok? <==> call.Got?
    ensures r.Err? ==> r.error.kind == PlainException || r.error == call.err
  {
    match call
    case GetRaised(e) => Err(WrapApiError(e))
    case Got(status, body) => Ok(HttpResponse(status, body))
  }

  // ----- the except chain of main -----

  predicate TokenFamily(m: string)
  {
    Contains(m, "token") || Contains(m, "access_token") || Contains(m, "authentication") || Contains(m, "unauthorized")
  }

  predicate SslFamily(m: string)
  {
    Contains(m, "ssl") || Contains(m, "certificate")
  }

  predicate ConnectionFamily(m: string)
  {
    Contains(m, "connection") || Contains(m, "proxy") || Contains(m, "network")
  }

  predicate TimeoutFamily(m: string)
  {
    Contains(m, "timeout") || Contains(m, "timed out")
  }

  predicate AuthFamily(m: string)
  {
    || Contains(m, "401") || Contains(m, "403") || Contains(m, "unauthorized")
    || Contains(m, "forbidden") || Contains(m, "authentication") || Contains(m, "token")
  }

  /** The exit code an exception's lower-cased text selects in the `except Exception` branch. */
  function ExceptionCode(m: string): (code: int)
    ensures 1 <= code <= 4
  {
    if SslFamily(m) then SslError
    else if ConnectionFamily(m) || TimeoutFamily(m) then ConnectionError
    else if AuthFamily(m) then AuthError
    else OtherError
  }

  /** How `main` reports an exception that reached it: `except FileNotFoundError`, `except ValueError`, `except Exception`. */
  function Classify(e: PyError): (o: Outcome)
    ensures 1 <= o.code <= 4
    ensures e.kind == FileNotFound ==> o == Outcome(OtherError, FailureBanner(e.text))
    ensures e.kind != FileNotFound && !IsValueError(e.kind) ==> o.code == ExceptionCode(Lower(e.text))
  {
    var m := Lower(e.text);
    if e.kind == FileNotFound then Outcome(OtherError, FailureBanner(e.text))
    else if IsValueError(e.kind) then
      if TokenFamily(m) then Outcome(AuthError, FailureBanner("Authentication failed: " + e.text))
      else Outcome(OtherError, FailureBanner(e.text))
    else if SslFamily(m) then Outcome(SslError, FailureBanner("SSL error: " + e.text))
    else if ConnectionFamily(m) then Outcome(ConnectionError, FailureBanner("Connection error: " + e.text))
    else if TimeoutFamily(m) then Outcome(ConnectionError, FailureBanner("Connection error (timeout): " + e.text))
    else if AuthFamily(m) then Outcome(AuthError, FailureBanner("Authentication error: " + e.text))
    else Outcome(OtherError, FailureBanner("Unexpected error: " + e.text))
  }

  /**
   * Outside the two named classes, the first keyword family that the lower-cased text
   * mentions decides, in the order SSL, connection, timeout, authentication.
   */
  lemma ExceptionFirstFamilyWins(e: PyError)
    requires e.kind != FileNotFound && !IsValueError(e.kind)
    ensures var m := Lower(e.text); var c := Classify(e).code;
      && (c == SslError <==> SslFamily(m))
      && (c == ConnectionError <==> !SslFamily(m) && (ConnectionFamily(m) || TimeoutFamily(m)))
      && (c == AuthError <==> !SslFamily(m) && !ConnectionFamily(m) && !TimeoutFamily(m) && AuthFamily(m))
      && (c == OtherError <==> !SslFamily(m) && !ConnectionFamily(m) && !TimeoutFamily(m) && !AuthFamily(m))
  {
  }

  /** A `ValueError` is an authentication failure exactly when its text mentions a token keyword, and otherwise exits 4. */
  lemma ValueErrorCodes(e: PyError)
    requires IsValueError(e.kind)
    ensures Classify(e).code == AuthError <==> TokenFamily(Lower(e.text))
    ensures Classify(e).code != AuthError ==> Classify(e) == Outcome(OtherError, FailureBanner(e.text))
  {
  }

  /** More text can only move a message to an earlier family: the code never grows. */
  lemma {:induction false} ExceptionCodeMonotone(p: string, s: string, q: string)
    ensures ExceptionCode(Lower(p + s + q)) <= ExceptionCode(Lower(s))
  {
    var m := Lower(s);
    if SslFamily(m) {
      if Contains(m, "ssl") { ContainsLowerWithin(p, s, q, "ssl"); }
      else { ContainsLowerWithin(p, s, q, "certificate"); }
    } else if ConnectionFamily(m) {
      if Contains(m, "connection") { ContainsLowerWithin(p, s, q, "connection"); }
      else if Contains(m, "proxy") { ContainsLowerWithin(p, s, q, "proxy"); }
      else { ContainsLowerWithin(p, s, q, "network"); }
    } else if TimeoutFamily(m) {
      if Contains(m, "timeout") { ContainsLowerWithin(p, s, q, "timeout"); }
      else { ContainsLowerWithin(p, s, q, "timed out"); }
    } else if AuthFamily(m) {
      if Contains(m, "401") { ContainsLowerWithin(p, s, q, "401"); }
      else if Contains(m, "403") { ContainsLowerWithin(p, s, q, "403"); }
      else if Contains(m, "unauthorized") { ContainsLowerWithin(p, s, q, "unauthorized"); }
      else if Contains(m, "forbidden") { ContainsLowerWithin(p, s, q, "forbidden"); }
      else if Contains(m, "authentication") { ContainsLowerWithin(p, s, q, "authentication"); }
      else { ContainsLowerWithin(p, s, q, "token"); }
    }
  }

  /** Each wrapper's prefix names its own keyword family, whatever text follows it. */
  lemma SslTagMentions(t: string)
    ensures Contains(Lower(SslTag + t), "ssl")
  {
    LowerMentions("", "SSL", " certificate error: ", t, "ssl");
  }

  lemma ConnectionTagMentions(t: string)
    ensures Contains(Lower(ConnectionTag + t), "connection")
  {
    LowerMentions("", "Connection", " error: ", t, "connection");
  }

  lemma TimeoutTagMentions(t: string)
    ensures Contains(Lower(TimeoutTag + t), "timeout")
  {
    LowerMentions("Request ", "timeout", ": ", t, "timeout");
  }

  /** A transport error whose text mentions `SSL` always exits 1, from either call. */
  lemma SslWrappedExitsOne(e: PyError, response: Option<HttpResponse>)
    requires e.kind == RequestsErr && Contains(e.text, "SSL")
    ensures Classify(WrapTokenError(e, response)).code == SslError
    ensures Classify(WrapApiError(e)).code == SslError
  {
    SslTagMentions(e.text);
  }

  /** A transport error re-raised as a connection error exits 1 or 2, never 3 or 4. */
  lemma ConnectionWrappedExitsOneOrTwo(e: PyError, response: Option<HttpResponse>)
    requires e.kind == RequestsErr && !Contains(e.text, "SSL") && Contains(e.text, "Connection")
    ensures Classify(WrapTokenError(e, response)).code in {SslError, ConnectionError}
    ensures Classify(WrapApiError(e)).code in {SslError, ConnectionError}
  {
    ConnectionTagMentions(e.text);
  }

  /** A transport error re-raised as a timeout exits 1 or 2, never 3 or 4. */
  lemma TimeoutWrappedExitsOneOrTwo(e: PyError, response: Option<HttpResponse>)
    requires e.kind == RequestsErr && !Contains(e.text, "SSL") && !Contains(e.text, "Connection") && Contains(e.text, "Timeout")
    ensures Classify(WrapTokenError(e, response)).code in {SslError, ConnectionError}
    ensures Classify(WrapApiError(e)).code in {SslError, ConnectionError}
  {
    TimeoutTagMentions(e.text);
  }

  /** A `ValueError` whose text mentions `token` is reported as an authentication failure. */
  lemma TokenValueErrorIsAuthFailure(e: PyError)
    requires IsValueError(e.kind) && Contains(Lower(e.text), "token")
    ensures Classify(e) == Outcome(AuthError, FailureBanner("Authentication failed: " + e.text))
  {
  }

  const TokenNotFound := "Access " + "token" + " not found in response"

  /** A token response without a usable `access_token` is an authentication failure (exit 3). */
  lemma MissingTokenIsAuthFailure(status: int, text: string, statusMessage: string, token: Option<string>)
    requires !FailingStatus(status) && (token.None? || token.value == "")
    ensures GetAccessToken(Responded(status, text, statusMessage, BodyParsed(token))) ==
              Err(PyError(ValueErr, TokenNotFound))
    ensures Classify(PyError(ValueErr, TokenNotFound)) ==
              Outcome(AuthError, FailureBanner("Authentication failed: " + TokenNotFound))
  {
    TokenNotFoundMentionsToken();
    TokenValueErrorIsAuthFailure(PyError(ValueErr, TokenNotFound));
  }

  lemma TokenNotFoundMentionsToken()
    ensures Contains(Lower(TokenNotFound), "token")
  {
    LowerMentions("Access ", "token", " not found in response", "", "token");
    assert TokenNotFound + "" == TokenNotFound;
  }

  /** Outside the two named classes, more text around an exception's message never raises its exit code. */
  lemma ClassifyMonotone(k: PyKind, p: string, s: string, q: string)
    requires k != FileNotFound && !IsValueError(k)
    ensures Classify(PyError(k, p + s + q)).code <= Classify(PyError(k, s)).code
  {
    ExceptionCodeMonotone(p, s, q);
  }

  // ----- main -----

  /**
   * One run of `main` after the interpreter check: load `envVars.txt`, get a token, fetch the
   * members list and judge it. `located` and `lines` describe the configuration file.
   */
  function PyMain(located: Option<string>, lines: seq<string>, token: TokenCall, api: ApiCall): (o: Outcome)
    ensures 0 <= o.code <= 4
    ensures o.code == Success ==> o.banner == SuccessBanner && GetAccessToken(token).Ok?
  {
    match LoadResult(DefaultPath, located, lines)
    case Err(e) => Classify(e)
    case Ok(_) =>
      match GetAccessToken(token)
      case Err(e) => Classify(e)
      case Ok(_) =>
        match TestApiConnection(api)
        case Err(e) => Classify(e)
        case Ok(r) =>
          if ValidateResponse(r.statusCode, r.text) then Outcome(Success, SuccessBanner)
          else Outcome(OtherError, FailureBanner(ValidationMessage(r.statusCode, r.text)))
  }

  /**
   * A run exits with one of the five codes; it exits 0, announcing success, exactly when the
   * file loads, a token is issued and the members response validates; a response that does
   * not validate exits 4.
   */
  lemma PyMainExitCodes(located: Option<string>, lines: seq<string>, token: TokenCall, api: ApiCall)
    ensures var o := PyMain(located, lines, token, api);
      && 0 <= o.code <= 4
      && (o.code == Success <==>
            && LoadResult(DefaultPath, located, lines).Ok?
            && GetAccessToken(token).Ok?
            && api.Got? && ValidateResponse(api.statusCode, api.body))
      && (o.code == Success ==> o.banner == SuccessBanner)
    ensures LoadResult(DefaultPath, located, lines).Ok? && GetAccessToken(token).Ok? && api.Got?
              && !ValidateResponse(api.statusCode, api.body) ==>
              PyMain(located, lines, token, api).code == OtherError
  {
  }

  /** Without the configuration file the run exits 4 and says which file is missing. */
  lemma MissingFileExitsFour(lines: seq<string>, token: TokenCall, api: ApiCall)
    ensures PyMain(None, lines, token, api) == Outcome(OtherError, FailureBanner(NotFoundMessage(DefaultPath)))
  {
  }

  // ----- the unit tests' scenarios -----

  /** Any 200 response that mentions `"name"` and then `"email"` validates. */
  lemma BothKeysValidate(a: string, b: string, c: string)
    ensures ValidateResponse(200, a + NameKey + b + EmailKey + c)
  {
    assert a + NameKey + b + EmailKey + c == a + NameKey + (b + EmailKey + c);
    Found(a, NameKey, b + EmailKey + c);
    Found(a + NameKey + b, EmailKey, c);
  }

  /** A text lacking `S` and `C` mentions neither `SSL` nor `Connection`. */
  lemma NeitherSslNorConnection(t: string)
    requires 'S' !in t && 'C' !in t
    ensures !Contains(t, "SSL") && !Contains(t, "Connection")
  {
    LacksChar(t, "SSL", 'S');
    LacksChar(t, "Connection", 'C');
  }

  const MockedMembers := "{" + NameKey + ": \"Test User\", " + EmailKey + ": \"test@example.com\"}"

  /** The three validation cases of the unit tests. */
  lemma ValidateResponseCases()
    ensures ValidateResponse(200, MockedMembers)
    ensures !ValidateResponse(200, "{\"id\": \"123\"}")
    ensures !ValidateResponse(404, "Not found")
  {
    BothKeysValidate("{", ": \"Test User\", ", ": \"test@example.com\"}");
    LacksChar("{\"id\": \"123\"}", NameKey, 'n');
  }

  const MockedSslError := "SSL" + "Error: CERTIFICATE_VERIFY_FAILED " + "certificate verify failed"

  /** The mocked SSL failure of the token request is re-raised as an SSL certificate error and exits 1. */
  lemma MockedSslFailure()
    ensures GetAccessToken(PostRaised(PyError(RequestsErr, MockedSslError))) ==
              Err(PyError(PlainException, SslTag + MockedSslError))
    ensures Classify(PyError(PlainException, SslTag + MockedSslError)).code == SslError
  {
    StartsWith("SSL", "Error: CERTIFICATE_VERIFY_FAILED " + "certificate verify failed");
    SslWrappedExitsOne(PyError(RequestsErr, MockedSslError), None);
  }

  const MockedProxyError := "Connection" + "Error: Proxy connection failed"

  /** The mocked proxy failure of the token request is re-raised as a connection error and exits 1 or 2. */
  lemma MockedConnectionFailure()
    ensures GetAccessToken(PostRaised(PyError(RequestsErr, MockedProxyError))) ==
              Err(PyError(PlainException, ConnectionTag + MockedProxyError))
    ensures Classify(PyError(PlainException, ConnectionTag + MockedProxyError)).code in {SslError, ConnectionError}
  {
    LacksChar(MockedProxyError, "SSL", 'S');
    StartsWith("Connection", "Error: Proxy connection failed");
    ConnectionWrappedExitsOneOrTwo(PyError(RequestsErr, MockedProxyError), None);
  }

  const MockedReadTimeout := "Timeout" + ": Read timed out (timeout=30)"

  /** The mocked read timeout of the members request is re-raised as a request timeout and exits 1 or 2. */
  lemma MockedTimeout()
    ensures TestApiConnection(GetRaised(PyError(RequestsErr, MockedReadTimeout))) ==
              Err(PyError(PlainException, TimeoutTag + MockedReadTimeout))
    ensures Classify(PyError(PlainException, TimeoutTag + MockedReadTimeout)).code in {SslError, ConnectionError}
  {
    NeitherSslNorConnection(MockedReadTimeout);
    StartsWith("Timeout", ": Read timed out (timeout=30)");
    TimeoutWrappedExitsOneOrTwo(PyError(RequestsErr, MockedReadTimeout), None);
  }

  // ----- the unbound `response` -----

  /**
   * Whenever `requests.post` itself raises an error whose text mentions `HTTP` but none of
   * `SSL`, `Connection`, `Timeout`, the code as written loses that error and raises
   * `UnboundLocalError` instead; the corrected wrapper reports it as a request error.
   */
  lemma UnboundResponseLosesTheError(e: PyError)
    requires e.kind == RequestsErr && Contains(e.text, "HTTP")
    requires !Contains(e.text, "SSL") && !Contains(e.text, "Connection") && !Contains(e.text, "Timeout")
    ensures WrapTokenErrorAsWritten(e, None) == PyError(OtherErr, UnboundResponseMessage)
    ensures WrapTokenError(e, None) == PyError(PlainException, "Request error: " + e.text)
    ensures GetAccessToken(PostRaised(e)) == Err(PyError(PlainException, "Request error: " + e.text))
  {
  }

  /** A quote joining two texts without `Timeout`, the left one lacking `T`, creates no `Timeout`. */
  lemma QuotedAfter(a: string, b: string)
    requires 'T' !in a && !Contains(b, "Timeout")
    ensures !Contains(a + "'" + b, "Timeout")
  {
    LacksChar(a, "Timeout", 'T');
    assert a + "'" + b == a + ['\''] + b;
    NotAcross(a, '\'', b, "Timeout");
  }

  /** The same with the right one lacking `T`. */
  lemma QuotedBefore(a: string, b: string)
    requires !Contains(a, "Timeout") && 'T' !in b
    ensures !Contains(a + "'" + b, "Timeout")
  {
    LacksChar(b, "Timeout", 'T');
    assert a + "'" + b == a + ['\''] + b;
    NotAcross(a, '\'', b, "Timeout");
  }

  /** The message of the `InvalidURL` that `requests` raises for a URL without a host. */
  function InvalidUrlMessage(url: string): string
  {
    "Invalid URL " + "'" + url + "': No host supplied"
  }

  /** The message keeps the URL's keywords and adds none of its own. */
  lemma InvalidUrlKeywords(url: string)
    requires Contains(url, "HTTP") && 'S' !in url && 'C' !in url && !Contains(url, "Timeout")
    ensures var t := InvalidUrlMessage(url);
      Contains(t, "HTTP") && !Contains(t, "SSL") && !Contains(t, "Connection") && !Contains(t, "Timeout")
  {
    InvalidUrlMentionsHttp(url);
    InvalidUrlLacksCapitals(url);
    NeitherSslNorConnection(InvalidUrlMessage(url));
    InvalidUrlAddsNoTimeout(url);
  }

  lemma InvalidUrlMentionsHttp(url: string)
    requires Contains(url, "HTTP")
    ensures Contains(InvalidUrlMessage(url), "HTTP")
  {
    ContainsWithin(url, "HTTP", "Invalid URL " + "'", "': No host supplied");
  }

  lemma InvalidUrlLacksCapitals(url: string)
    requires 'S' !in url && 'C' !in url
    ensures 'S' !in InvalidUrlMessage(url) && 'C' !in InvalidUrlMessage(url)
  {
  }

  lemma InvalidUrlAddsNoTimeout(url: string)
    requires !Contains(url, "Timeout")
    ensures !Contains(InvalidUrlMessage(url), "Timeout")
  {
    HostTailAddsNoTimeout(url);
    QuotedAfter("Invalid URL ", url + "': No host supplied");
    assert InvalidUrlMessage(url) == "Invalid URL " + "'" + (url + "': No host supplied");
  }

  lemma HostTailAddsNoTimeout(url: string)
    requires !Contains(url, "Timeout")
    ensures !Contains(url + "': No host supplied", "Timeout")
  {
    QuotedBefore(url, ": No host supplied");
    assert url + "'" + ": No host supplied" == url + "': No host supplied";
  }

  /**
   * A token URL that mentions `HTTP` but none of `S`, `C`, `Timeout` and has no host makes
   * the code as written lose the `InvalidURL` error.
   */
  lemma InvalidUrlShowsUnboundResponse(url: string)
    requires Contains(url, "HTTP") && 'S' !in url && 'C' !in url && !Contains(url, "Timeout")
    ensures var e := PyError(RequestsErr, InvalidUrlMessage(url));
      && WrapTokenErrorAsWritten(e, None) == PyError(OtherErr, UnboundResponseMessage)
      && WrapTokenError(e, None) == PyError(PlainException, "Request error: " + e.text)
  {
    InvalidUrlKeywords(url);
    UnboundResponseLosesTheError(PyError(RequestsErr, InvalidUrlMessage(url)));
  }

  /** The configured token URL typed with a single slash after the scheme. */
  const TypedTokenUrl := "HTTP" + ":" + "/login.cloud.camunda.io/oauth/token"

  /** The typed URL is such a URL. */
  lemma SingleSlashUrlQualifies()
    ensures var url := TypedTokenUrl;
      Contains(url, "HTTP") && 'S' !in url && 'C' !in url && !Contains(url, "Timeout")
  {
    TypedUrlMentionsHttp();
    TypedUrlLacksCapitals();
    TypedUrlLacksTimeout();
  }

  lemma TypedUrlLacksCapitals()
    ensures 'S' !in TypedTokenUrl && 'C' !in TypedTokenUrl
  {
  }

  lemma TypedUrlLacksTimeout()
    ensures !Contains(TypedTokenUrl, "Timeout")
  {
    UrlWithoutTimeout("HTTP", ":", "/login.cloud.camunda.io/oauth/token");
  }

  lemma TypedUrlMentionsHttp()
    ensures Contains(TypedTokenUrl, "HTTP")
  {
    StartsWith("HTTP", ":" + "/login.cloud.camunda.io/oauth/token");
    assert "HTTP" + (":" + "/login.cloud.camunda.io/oauth/token") == TypedTokenUrl;
  }

  /** A text made of `HTTP`, a colon-only part and a part without `T` has no `Timeout`. */
  lemma UrlWithoutTimeout(scheme: string, colon: string, rest: string)
    requires scheme == "HTTP" && colon == ":" && 'T' !in rest
    ensures !Contains(scheme + colon + rest, "Timeout")
  {
    LacksChar(scheme, "Timeout", 'm');
    LacksChar(rest, "Timeout", 'T');
    NotAcross(scheme, ':', rest, "Timeout");
    assert scheme + colon + rest == scheme + [':'] + rest;
  }
}
