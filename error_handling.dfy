/**
 * The error-handling patterns of a worker: the `APIError` family as one
 * tagged datatype, the central `handleError` that turns an error into a
 * response, the field validator, the classifiers that turn a database or
 * HTTP failure into an error kind, the fallback order of graceful
 * degradation and the bounded retry loop with exponential backoff. Fetch,
 * the database, the cache and timers are outside the model: their outcomes
 * arrive as parameters.
 */
module ErrorHandling {
  import opened Text

  // ---------------------------------------------------------------------------
  // Error kinds
  // ---------------------------------------------------------------------------

  /** A thrown value: the `APIError` subclasses, a plain `APIError`, or any other error. */
  datatype Thrown =
    | Api(message: string, status: int, code: string)
    | Validation(message: string, fields: map<string, string>)
    | NotFound(resource: string)
    | Unauthorized(message: string)
    | RateLimit(retryAfter: int)
    | Other(name: string, message: string)

  /** `error instanceof APIError`. */
  predicate IsApiError(e: Thrown) { !e.Other? }

  /** `new APIError(message)`: status 500 and code `INTERNAL_ERROR` unless given. */
  function NewApiError(message: string): (e: Thrown)
    ensures IsApiError(e) && Status(e) == 500 && Code(e) == "INTERNAL_ERROR" && Message(e) == message
  {
    Api(message, 500, "INTERNAL_ERROR")
  }

  /** `new NotFoundError()`: the resource defaults to "Resource". */
  const DefaultNotFound: Thrown := NotFound("Resource")
  /** `new UnauthorizedError()`: the message defaults to "Unauthorized". */
  const DefaultUnauthorized: Thrown := Unauthorized("Unauthorized")
  /** `new RateLimitError()`: `retryAfter` defaults to 60. */
  const DefaultRateLimit: Thrown := RateLimit(60)

  /** The HTTP status of an API error: its own for a plain one, a fixed 4xx for each subclass. */
  function Status(e: Thrown): (r: int)
    requires IsApiError(e)
    ensures e.Api? ==> r == e.status
    ensures !e.Api? ==> 400 <= r <= 499
  {
    match e
    case Api(_, status, _) => status
    case Validation(_, _) => 400
    case NotFound(_) => 404
    case Unauthorized(_) => 401
    case RateLimit(_) => 429
  }

  /** The machine-readable code: its own for a plain one; a subclass never reports the generic `INTERNAL_ERROR`. */
  function Code(e: Thrown): (r: string)
    requires IsApiError(e)
    ensures e.Api? ==> r == e.code
    ensures !e.Api? ==> r != "INTERNAL_ERROR" && r != []
  {
    match e
    case Api(_, _, code) => code
    case Validation(_, _) => "VALIDATION_ERROR"
    case NotFound(_) => "NOT_FOUND"
    case Unauthorized(_) => "UNAUTHORIZED"
    case RateLimit(_) => "RATE_LIMIT_EXCEEDED"
  }

  /** The message: the one given, except that a not-found and a rate-limit error compose their own. */
  function Message(e: Thrown): (r: string)
    ensures !e.NotFound? && !e.RateLimit? ==> r == e.message
    ensures e.NotFound? ==> |r| == |e.resource| + 10 && r[..|e.resource|] == e.resource
    ensures e.RateLimit? ==> r == "Rate limit exceeded"
  {
    match e
    case Api(message, _, _) => message
    case Validation(message, _) => message
    case NotFound(resource) => resource + " not found"
    case Unauthorized(message) => message
    case RateLimit(_) => "Rate limit exceeded"
    case Other(_, message) => message
  }

  /** The subclass constructors fix these status and code pairs. */
  lemma SubclassCodes(message: string, fields: map<string, string>, resource: string, retryAfter: int)
    ensures Status(Validation(message, fields)) == 400 && Code(Validation(message, fields)) == "VALIDATION_ERROR"
    ensures Status(NotFound(resource)) == 404 && Code(NotFound(resource)) == "NOT_FOUND"
    ensures Message(NotFound(resource)) == resource + " not found"
    ensures Status(Unauthorized(message)) == 401 && Code(Unauthorized(message)) == "UNAUTHORIZED"
    ensures Status(RateLimit(retryAfter)) == 429 && Code(RateLimit(retryAfter)) == "RATE_LIMIT_EXCEEDED"
    ensures DefaultRateLimit.retryAfter == 60 && Message(DefaultNotFound) == "Resource not found"
  {
  }

  // ---------------------------------------------------------------------------
  // handleError
  // ---------------------------------------------------------------------------

  datatype ErrorBody = ErrorBody(error: string, message: string, fields: Option<map<string, string>>)
  datatype ErrorReply = ErrorReply(status: int, body: ErrorBody, headers: map<string, string>)

  const JsonHeaders: map<string, string> := map["Content-Type" := "application/json"]

  /**
   * The response `handleError` gives for an error. An API error is answered
   * with its own status, code and message; only a validation error carries
   * `fields`, only a rate-limit error a `Retry-After` header.
   */
  function ErrorResponse(e: Thrown): (r: ErrorReply)
    ensures IsApiError(e) ==>
      && r.status == Status(e) && r.body.error == Code(e) && r.body.message == Message(e)
      && (r.body.fields.Some? <==> e.Validation?)
      && (e.Validation? ==> r.body.fields == Some(e.fields))
      && ("Retry-After" in r.headers <==> e.RateLimit?)
      && (e.RateLimit? ==> r.headers["Retry-After"] == IntToString(e.retryAfter))
    ensures !IsApiError(e) ==> r.status == 500 && r.body.error == "INTERNAL_ERROR" && r.body.fields.None?
    ensures "Content-Type" in r.headers && r.headers["Content-Type"] == "application/json"
  {
    if IsApiError(e) then
      ErrorReply(
        Status(e),
        ErrorBody(Code(e), Message(e), if e.Validation? then Some(e.fields) else None),
        if e.RateLimit? then JsonHeaders["Retry-After" := IntToString(e.retryAfter)] else JsonHeaders)
    else
      ErrorReply(500, ErrorBody("INTERNAL_ERROR", "An unexpected error occurred", None), JsonHeaders)
  }

  /** `handleError`: the body and the headers are built up, then sent with the error's status. */
  method HandleError(e: Thrown) returns (r: ErrorReply)
    ensures r == ErrorResponse(e)
  {
    if IsApiError(e) {
      var body := ErrorBody(Code(e), Message(e), None);
      if e.Validation? {
        body := body.(fields := Some(e.fields));
      }
      var headers := JsonHeaders;
      if e.RateLimit? {
        headers := headers["Retry-After" := IntToString(e.retryAfter)];
      }
      r := ErrorReply(Status(e), body, headers);
    } else {
      r := ErrorReply(500, ErrorBody("INTERNAL_ERROR", "An unexpected error occurred", None), JsonHeaders);
    }
  }

  /** Any other error is a 500 whose body does not depend on the error: its message never leaks. */
  lemma UnknownErrorHidden(e1: Thrown, e2: Thrown)
    requires !IsApiError(e1) && !IsApiError(e2)
    ensures ErrorResponse(e1) == ErrorResponse(e2)
    ensures ErrorResponse(e1).status == 500 && ErrorResponse(e1).body.error == "INTERNAL_ERROR"
    ensures ErrorResponse(e1).body.message == "An unexpected error occurred"
  {
  }

  // ---------------------------------------------------------------------------
  // validateUserInput
  // ---------------------------------------------------------------------------

  /** A JSON-decoded value as the validator sees it (`NaN` is not modelled). */
  datatype JsValue = JsUndefined | JsNull | JsBool(b: bool) | JsNumber(n: real) | JsString(s: string) | JsObject

  /** JavaScript truthiness. */
  predicate Truthy(v: JsValue) {
    match v
    case JsUndefined => false
    case JsNull => false
    case JsBool(b) => b
    case JsNumber(n) => n != 0.0
    case JsString(s) => s != []
    case JsObject => true
  }

  /** The request body: the three fields the validator reads. */
  datatype UserInput = UserInput(name: JsValue, email: JsValue, age: JsValue)

  /** What one field check decides; `Crash` is the `TypeError` of calling `trim` on a non-string. */
  datatype Check = Pass | Fail(text: string) | Crash

  /** A character `[^\s@]` accepts. */
  predicate EmailChar(c: char) { c != '@' && !IsSpace(c) }

  /**
   * `/^[^\s@]+@[^\s@]+\.[^\s@]+$/`: one '@' with something before it, and
   * after it a '.' that is neither the first nor the last character; no
   * other '@' and no white space anywhere.
   */
  predicate IsEmail(s: string)
    ensures IsEmail(s) ==> |s| >= 5 && '@' in s && forall k :: 0 <= k < |s| ==> !IsSpace(s[k])
  {
    exists i :: 0 < i < |s| && s[i] == '@'
      && (forall k :: 0 <= k < |s| && k != i ==> EmailChar(s[k]))
      && (exists j :: i + 1 < j < |s| - 1 && s[j] == '.')
  }

  /** The name passes exactly when it is a string that is not blank and has at most 100 UTF-16 code units. */
  function NameCheck(v: JsValue): (c: Check)
    ensures c.Pass? <==> v.JsString? && Trim(v.s) != [] && Utf16Length(v.s) <= 100
    ensures c.Crash? <==> Truthy(v) && !v.JsString?
  {
    if !Truthy(v) then Fail("Name is required")
    else if !v.JsString? then Crash
    else if Trim(v.s) == [] then Fail("Name is required")
    else if Utf16Length(v.s) > 100 then Fail("Name must be 100 characters or less")
    else Pass
  }

  /** The email passes exactly when it is a string that is not blank and has the address shape. */
  function EmailCheck(v: JsValue): (c: Check)
    ensures c.Pass? <==> v.JsString? && Trim(v.s) != [] && IsEmail(v.s)
    ensures c.Crash? <==> Truthy(v) && !v.JsString?
  {
    if !Truthy(v) then Fail("Email is required")
    else if !v.JsString? then Crash
    else if Trim(v.s) == [] then Fail("Email is required")
    else if !IsEmail(v.s) then Fail("Invalid email format")
    else Pass
  }

  /** Checked only when present: anything but a non-negative number fails (`typeof null` is 'object'). */
  function AgeCheck(v: JsValue): (c: Check)
    ensures c.Pass? <==> v.JsUndefined? || (v.JsNumber? && v.n >= 0.0)
    ensures !c.Crash?
  {
    if v.JsUndefined? then Pass
    else if !v.JsNumber? || v.n < 0.0 then Fail("Age must be a positive number")
    else Pass
  }

  function Entry(field: string, c: Check): map<string, string> {
    if c.Fail? then map[field := c.text] else map[]
  }

  /** The `errors` object: one entry per failing field, with that check's message; age only when present. */
  function FieldErrors(data: UserInput): (e: map<string, string>)
    ensures "name" in e <==> NameCheck(data.name).Fail?
    ensures "email" in e <==> EmailCheck(data.email).Fail?
    ensures "age" in e <==> AgeCheck(data.age).Fail?
    ensures NameCheck(data.name).Fail? ==> e["name"] == NameCheck(data.name).text
    ensures EmailCheck(data.email).Fail? ==> e["email"] == EmailCheck(data.email).text
    ensures AgeCheck(data.age).Fail? ==> e["age"] == AgeCheck(data.age).text
    ensures data.age.JsUndefined? ==> "age" !in e
    ensures e.Keys <= {"name", "email", "age"}
  {
    Entry("name", NameCheck(data.name)) + Entry("email", EmailCheck(data.email)) + Entry("age", AgeCheck(data.age))
  }

  datatype Validated = Accepted | Rejected(error: Thrown) | TypeErrorThrown

  /**
   * `validateUserInput`: the fields are checked in the order name, email,
   * age, each failure filling its entry of `errors`; a `ValidationError`
   * is thrown when any entry is set.
   */
  method ValidateUserInput(data: UserInput) returns (r: Validated)
    ensures r.TypeErrorThrown? <==> NameCheck(data.name).Crash? || (!NameCheck(data.name).Crash? && EmailCheck(data.email).Crash?)
    ensures r.Rejected? <==> !r.TypeErrorThrown? && FieldErrors(data) != map[]
    ensures r.Rejected? ==> r.error == Validation("Validation failed", FieldErrors(data))
  {
    var errors: map<string, string> := map[];
    var check := NameCheck(data.name);
    if check.Crash? {
      return TypeErrorThrown;
    } else if check.Fail? {
      errors := errors["name" := check.text];
    }
    AddEntry(map[], "name", check);
    ghost var afterName := errors;

    check := EmailCheck(data.email);
    if check.Crash? {
      return TypeErrorThrown;
    } else if check.Fail? {
      errors := errors["email" := check.text];
    }
    AddEntry(afterName, "email", check);
    ghost var afterEmail := errors;

    check := AgeCheck(data.age);
    if check.Fail? {
      errors := errors["age" := check.text];
    }
    AddEntry(afterEmail, "age", check);
    assert errors == FieldErrors(data);

    if errors != map[] {
      return Rejected(Validation("Validation failed", errors));
    }
    r := Accepted;
  }

  /** Setting a failing field's message is adding its entry. */
  lemma AddEntry(e: map<string, string>, field: string, c: Check)
    ensures (if c.Fail? then e[field := c.text] else e) == e + Entry(field, c)
  {
  }

  /**
   * A name of 101 code units fails on its length, one of 100 passes, and a
   * blank one is missing. On text of the Basic Multilingual Plane the code
   * units are the characters, so dropping the last of 101 characters passes.
   */
  lemma NameLimits(s: string, t: string)
    requires 0 < |s| && Utf16Length(s) == 101 && !IsSpace(s[0])
    requires 0 < |t| && Utf16Length(t) == 100 && !IsSpace(t[0])
    ensures NameCheck(JsString(s)) == Fail("Name must be 100 characters or less")
    ensures NameCheck(JsString(t)) == Pass
    ensures NameCheck(JsString(" ")) == Fail("Name is required")
    ensures (forall k :: 0 <= k < |s| ==> s[k] as int <= 0xFFFF) ==>
      |s| == 101 && NameCheck(JsString(s[..100])) == Pass
  {
    NameShape(s);
    NameShape(t);
    assert AllSpace(" ");
    if forall k :: 0 <= k < |s| ==> s[k] as int <= 0xFFFF {
      BmpDropLast(s);
      NameShape(s[..100]);
    }
  }

  /** A string starting with a non-space character is a name that is not blank. */
  lemma NameShape(s: string)
    requires 0 < |s| && !IsSpace(s[0])
    ensures NameCheck(JsString(s)) == (if Utf16Length(s) > 100 then Fail("Name must be 100 characters or less") else Pass)
  {
    assert Trim(s) != [] by {
      assert !AllSpace(s);
    }
  }

  /** On the Basic Multilingual Plane, 101 code units are 101 characters and dropping the last leaves 100. */
  lemma BmpDropLast(s: string)
    requires 0 < |s| && Utf16Length(s) == 101
    requires forall k :: 0 <= k < |s| ==> s[k] as int <= 0xFFFF
    ensures |s| == 101 && s[..100][0] == s[0] && Utf16Length(s[..100]) == 100
  {
    Utf16LengthBmp(s);
    var u := s[..100];
    forall k | 0 <= k < |u|
      ensures u[k] as int <= 0xFFFF
    {
      assert u[k] == s[k];
    }
    Utf16LengthBmp(u);
  }

  /** Sixty emoji are 120 code units: the name is refused although it has only 60 characters. */
  lemma AstralNameTooLong(s: string)
    requires |s| == 60 && forall k :: 0 <= k < |s| ==> s[k] == '\U{1F600}'
    ensures NameCheck(JsString(s)) == Fail("Name must be 100 characters or less")
  {
    Utf16LengthAstral(s);
    assert !IsSpace(s[0]);
    assert Trim(s) != [] by {
      assert !AllSpace(s);
    }
  }

  /** "a@b.c" is an address; "a@b", "a@.c", "a b@c.d" and "a@b@c.d" are not. */
  lemma EmailExamples()
    ensures IsEmail("a@b.c")
    ensures !IsEmail("a@b") && !IsEmail("a@.c") && !IsEmail("a b@c.d") && !IsEmail("a@b@c.d")
  {
    var ok := "a@b.c";
    assert ok[1] == '@' && ok[3] == '.';
    assert forall k :: 0 <= k < |ok| && k != 1 ==> EmailChar(ok[k]);
    var bad := "a b@c.d";
    assert !EmailChar(bad[1]);
    var two := "a@b@c.d";
    assert two[1] == '@' && two[3] == '@';
  }

  // ---------------------------------------------------------------------------
  // Classification of failures
  // ---------------------------------------------------------------------------

  /** The catch of `safeDBQuery`: the database message decides the error, 'UNIQUE constraint' first. */
  function ClassifyDbError(message: string): (e: Thrown)
    ensures IsApiError(e) && e.Api?
    ensures Contains(message, "UNIQUE constraint") ==> e == Api("Record already exists", 409, "DUPLICATE_ENTRY")
    ensures !Contains(message, "UNIQUE constraint") && Contains(message, "NOT NULL constraint") ==>
      e == Api("Required field missing", 400, "MISSING_REQUIRED_FIELD")
    ensures !Contains(message, "UNIQUE constraint") && !Contains(message, "NOT NULL constraint") ==>
      e == Api("Database operation failed", 500, "DATABASE_ERROR")
    ensures Status(e) == 409 <==> Contains(message, "UNIQUE constraint")
    ensures Status(e) == 400 <==> !Contains(message, "UNIQUE constraint") && Contains(message, "NOT NULL constraint")
    ensures Status(e) == 500 <==> !Contains(message, "UNIQUE constraint") && !Contains(message, "NOT NULL constraint")
  {
    if Contains(message, "UNIQUE constraint") then Api("Record already exists", 409, "DUPLICATE_ENTRY")
    else if Contains(message, "NOT NULL constraint") then Api("Required field missing", 400, "MISSING_REQUIRED_FIELD")
    else Api("Database operation failed", 500, "DATABASE_ERROR")
  }

  /** What a call gives back: a value, or a thrown error. */
  datatype Outcome<T> = Ok(value: T) | Threw(error: Thrown)

  /** `safeDBQuery`: the first row (or none) on success; a classified error on failure. */
  function SafeDbQuery<R>(db: Outcome<Option<R>>): (r: Outcome<Option<R>>)
    ensures db.Ok? ==> r == db
    ensures db.Threw? ==> r.Threw? && r.error == ClassifyDbError(Message(db.error))
  {
    match db
    case Ok(row) => Ok(row)
    case Threw(err) => Threw(ClassifyDbError(Message(err)))
  }

  /** A fetched response as the classifiers see it. */
  datatype HttpResponse = HttpResponse(status: int, retryAfter: Option<string>)

  /** `response.ok`. */
  predicate IsOk(r: HttpResponse) { 200 <= r.status <= 299 }

  /** `parseInt(response.headers.get('Retry-After') || 60)`, for a header of decimal digits. */
  function RetryAfterSeconds(h: Option<string>): (r: int)
    requires h.Some? ==> AllDigits(h.value)
    ensures h.None? || h == Some([]) ==> r == 60
    ensures r >= 0
  {
    if h.None? || h.value == [] then 60 else ParseDigits(h.value)
  }

  /** The error `safeFetch` throws for a response that is not ok. */
  function HttpError(r: HttpResponse): (e: Thrown)
    requires r.status == 429 && r.retryAfter.Some? ==> AllDigits(r.retryAfter.value)
    ensures IsApiError(e)
    ensures r.status == 404 ==> e == NotFound("External resource")
    ensures r.status == 401 || r.status == 403 ==> e == Unauthorized("External API authentication failed")
    ensures r.status == 429 ==> e == RateLimit(RetryAfterSeconds(r.retryAfter))
    ensures r.status >= 500 ==> Status(e) == 503 && Code(e) == "SERVICE_UNAVAILABLE"
    ensures r.status !in {401, 403, 404, 429} && r.status < 500 ==>
      Status(e) == 502 && Code(e) == "BAD_GATEWAY" && Message(e) == "External API error: " + IntToString(r.status)
  {
    if r.status == 404 then NotFound("External resource")
    else if r.status == 401 || r.status == 403 then Unauthorized("External API authentication failed")
    else if r.status == 429 then RateLimit(RetryAfterSeconds(r.retryAfter))
    else if r.status >= 500 then Api("External service unavailable", 503, "SERVICE_UNAVAILABLE")
    else Api("External API error: " + IntToString(r.status), 502, "BAD_GATEWAY")
  }

  /** The catch of `safeFetch`, for an error thrown by `fetch` itself. */
  function FetchFailure(e: Thrown): (r: Thrown)
    ensures IsApiError(r)
    ensures IsApiError(e) ==> r == e
    ensures e.Other? && e.name == "TypeError" && Contains(e.message, "fetch") ==>
      r == Api("Failed to connect to external service", 503, "CONNECTION_FAILED")
    ensures e.Other? && !(e.name == "TypeError" && Contains(e.message, "fetch")) ==>
      r == Api("External request failed", 500, "EXTERNAL_REQUEST_FAILED")
  {
    if e.Other? && e.name == "TypeError" && Contains(e.message, "fetch") then
      Api("Failed to connect to external service", 503, "CONNECTION_FAILED")
    else if IsApiError(e) then e
    else Api("External request failed", 500, "EXTERNAL_REQUEST_FAILED")
  }

  /** `safeFetch`: an ok response is returned unchanged; anything else becomes an API error. */
  function SafeFetch(fetched: Outcome<HttpResponse>): (r: Outcome<HttpResponse>)
    requires fetched.Ok? && fetched.value.status == 429 && fetched.value.retryAfter.Some? ==>
      AllDigits(fetched.value.retryAfter.value)
    ensures r.Ok? <==> fetched.Ok? && IsOk(fetched.value)
    ensures r.Ok? ==> r == fetched
    ensures r.Threw? ==> IsApiError(r.error)
    ensures fetched.Ok? && !IsOk(fetched.value) ==> r == Threw(HttpError(fetched.value))
    ensures fetched.Threw? ==> r == Threw(FetchFailure(fetched.error))
  {
    match fetched
    case Ok(resp) =>
      if IsOk(resp) then Ok(resp)
      // the error thrown inside the try reaches the catch, which re-throws an APIError unchanged
      else Threw(FetchFailure(HttpError(resp)))
    case Threw(err) => Threw(FetchFailure(err))
  }

  /** A `Retry-After` header holding a number's decimal notation is read back as that number. */
  lemma RetryAfterRoundTrip(n: nat)
    ensures RetryAfterSeconds(Some(Dec(n))) == n
  {
    ParseDec(n);
  }

  /** A 429 without `Retry-After` asks the client to wait 60 seconds. */
  lemma RateLimitDefault()
    ensures SafeFetch(Ok(HttpResponse(429, None))) == Threw(RateLimit(60))
    ensures ErrorResponse(RateLimit(60)).headers["Retry-After"] == "60"
  {
    assert DigitChar(6) == '6' && DigitChar(0) == '0';
    assert Dec(60) == Dec(6) + [DigitChar(0)];
  }

  /** `fetchWithTimeout`: an aborted fetch becomes a 504, anything else passes through. */
  function FetchWithTimeout<T>(fetched: Outcome<T>): (r: Outcome<T>)
    ensures fetched.Ok? ==> r == fetched
    ensures fetched.Threw? && fetched.error.Other? && fetched.error.name == "AbortError" ==>
      r == Threw(Api("Request timeout", 504, "GATEWAY_TIMEOUT"))
    ensures fetched.Threw? && !(fetched.error.Other? && fetched.error.name == "AbortError") ==> r == fetched
  {
    match fetched
    case Ok(v) => Ok(v)
    case Threw(err) =>
      if err.Other? && err.name == "AbortError" then Threw(Api("Request timeout", 504, "GATEWAY_TIMEOUT"))
      else Threw(err)
  }

  // ---------------------------------------------------------------------------
  // Graceful degradation
  // ---------------------------------------------------------------------------

  datatype Served<T> = Primary(data: T) | Cached(value: JsValue) | Secondary(data: T) | Unavailable

  /** The HTTP status of each answer: 503 only when every source failed. */
  function ServedStatus<T>(s: Served<T>): (r: int)
    ensures r == 200 || r == 503
    ensures r == 503 <==> s.Unavailable?
  {
    if s.Unavailable? then 503 else 200
  }

  /**
   * The fallback order: the primary source, then a truthy cached value
   * (a failing or empty cache is skipped), then the secondary source, then
   * 503.
   */
  function GracefulDegradation<T>(primary: Outcome<T>, cache: Outcome<JsValue>, secondary: Outcome<T>): (r: Served<T>)
    ensures r.Primary? <==> primary.Ok?
    ensures r.Cached? <==> primary.Threw? && cache.Ok? && Truthy(cache.value)
    ensures r.Secondary? <==> primary.Threw? && !(cache.Ok? && Truthy(cache.value)) && secondary.Ok?
    ensures ServedStatus(r) == 503 <==> primary.Threw? && !(cache.Ok? && Truthy(cache.value)) && secondary.Threw?
    ensures r.Primary? ==> r.data == primary.value
    ensures r.Cached? ==> r.value == cache.value
    ensures r.Secondary? ==> r.data == secondary.value
  {
    if primary.Ok? then Primary(primary.value)
    else if cache.Ok? && Truthy(cache.value) then Cached(cache.value)
    else if secondary.Ok? then Secondary(secondary.value)
    else Unavailable
  }

  // ---------------------------------------------------------------------------
  // fetchWithRetry
  // ---------------------------------------------------------------------------

  /** What one attempt gives: a response status, or a thrown error. */
  datatype Attempt = Got(status: int) | Failed

  /** A response worth retrying: 5xx or 429. */
  predicate Retryable(status: int) { status >= 500 || status == 429 }

  /** The statuses `fetchWithRetry` retries are exactly those `safeFetch` reports as rate limited or unavailable. */
  lemma RetryableClassified(status: int)
    ensures Retryable(status) <==> Status(HttpError(HttpResponse(status, None))) in {429, 503}
  {
  }

  function Pow2(k: nat): (r: nat)
    ensures r >= 1
  {
    if k == 0 then 1 else 2 * Pow2(k - 1)
  }

  /** The wait before attempt `k + 1`: `Math.pow(2, k) * 1000` ms. */
  function Backoff(k: nat): (r: nat)
    ensures r >= 1000 && r % 1000 == 0
  {
    Pow2(k) * 1000
  }

  /** The first wait is one second and each later wait doubles the one before. */
  lemma BackoffDoubles(k: nat)
    ensures Backoff(0) == 1000
    ensures Backoff(k + 1) == 2 * Backoff(k)
  {
  }

  datatype RetryResult = Response(status: int, attempts: nat) | GaveUp(error: Thrown)

  /**
   * `fetchWithRetry`: `outcomes[a]` is what attempt `a` gives. Returns the
   * result and the delays slept, in order.
   */
  method FetchWithRetry(outcomes: seq<Attempt>, maxRetries: int) returns (r: RetryResult, delays: seq<nat>)
    requires |outcomes| >= maxRetries
    ensures forall k :: 0 <= k < |delays| ==> delays[k] == Backoff(k)
    ensures r.Response? ==>
      && 1 <= r.attempts <= maxRetries
      && outcomes[r.attempts - 1] == Got(r.status)
      && (!Retryable(r.status) || r.attempts == maxRetries)
      && (forall a :: 0 <= a < r.attempts - 1 ==> outcomes[a].Failed? || Retryable(outcomes[a].status))
      && |delays| == r.attempts - 1
    ensures r.GaveUp? <==>
      maxRetries <= 0
      || ((forall a :: 0 <= a < maxRetries ==> outcomes[a].Failed? || Retryable(outcomes[a].status))
          && outcomes[maxRetries - 1].Failed?)
    ensures r.GaveUp? ==>
      && r.error == Api("Request failed after " + IntToString(maxRetries) + " attempts", 503, "MAX_RETRIES_EXCEEDED")
      && |delays| == if maxRetries <= 0 then 0 else maxRetries - 1
  {
    delays := [];
    var attempt := 0;
    while attempt < maxRetries
      invariant 0 <= attempt <= (if maxRetries < 0 then 0 else maxRetries)
      invariant |delays| == attempt
      invariant forall k :: 0 <= k < |delays| ==> delays[k] == Backoff(k)
      invariant forall a :: 0 <= a < attempt ==> outcomes[a].Failed? || Retryable(outcomes[a].status)
      invariant attempt == 0 || attempt < maxRetries
      decreases maxRetries - attempt
    {
      match outcomes[attempt]
      case Got(status) =>
        if status < 500 && status != 429 {
          return Response(status, attempt + 1), delays;
        }
        if attempt < maxRetries - 1 {
          delays := delays + [Backoff(attempt)];
          attempt := attempt + 1;
          continue;
        }
        return Response(status, attempt + 1), delays;
      case Failed =>
        if attempt < maxRetries - 1 {
          delays := delays + [Backoff(attempt)];
        }
        attempt := attempt + 1;
        if attempt == maxRetries {
          return GaveUp(Api("Request failed after " + IntToString(maxRetries) + " attempts", 503, "MAX_RETRIES_EXCEEDED")), delays;
        }
    }
    r := GaveUp(Api("Request failed after " + IntToString(maxRetries) + " attempts", 503, "MAX_RETRIES_EXCEEDED"));
  }
}
