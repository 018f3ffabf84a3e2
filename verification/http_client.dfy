/** The HTTP client wrapper (`utils/api.js`): the request interceptor that stamps every
    request with a cache-busting `_t` and a bearer header, and the response interceptor
    that resends network and 5xx failures up to three times with linear backoff and turns
    every final failure into one `{status, message, error}` object. The transport is an
    oracle: attempt `k` of a request yields `transport(k)`. */
module HttpClient {
  import opened Wrappers
  import opened Storage

  // ---------------------------------------------------------------------------
  // Request side

  datatype ParamValue = PText(text: string) | PNum(num: int)

  /** The parts of an axios request config the interceptors read or write. */
  datatype RequestConfig = RequestConfig(params: map<string, ParamValue>, headers: map<string, string>)

  const CacheBusterParam: string := "_t"
  const AuthorizationHeader: string := "Authorization"

  /** `localStorage.getItem('token')` when it is truthy. */
  function ApiToken(st: Store): (r: Option<string>)
    ensures r.Some? <==> ApiTokenKey in st && st[ApiTokenKey].Str? && st[ApiTokenKey].text != ""
    ensures r.Some? ==> r.value == st[ApiTokenKey].text
  {
    match GetText(st, ApiTokenKey)
    case Some(t) => if t != "" then Some(t) else None
    case None => None
  }

  /** The request interceptor at time `now` (milliseconds). */
  function InterceptRequest(c: RequestConfig, st: Store, now: int): (r: RequestConfig)
    ensures CacheBusterParam in r.params && r.params[CacheBusterParam] == PNum(now)
    ensures forall k :: k != CacheBusterParam ==>
      (k in r.params <==> k in c.params) && (k in c.params ==> r.params[k] == c.params[k])
    ensures ApiToken(st).Some? ==>
      AuthorizationHeader in r.headers && r.headers[AuthorizationHeader] == "Bearer " + ApiToken(st).value
    ensures forall h :: h != AuthorizationHeader ==>
      (h in r.headers <==> h in c.headers) && (h in c.headers ==> r.headers[h] == c.headers[h])
    ensures ApiToken(st).None? ==> r.headers == c.headers
  {
    var headers := match ApiToken(st)
      case Some(t) => c.headers[AuthorizationHeader := "Bearer " + t]
      case None => c.headers;
    RequestConfig(c.params[CacheBusterParam := PNum(now)], headers)
  }

  /** Intercepting twice keeps only the later time stamp: a resent request is stamped afresh. */
  lemma InterceptTwice(c: RequestConfig, st: Store, t1: int, t2: int)
    ensures InterceptRequest(InterceptRequest(c, st, t1), st, t2) == InterceptRequest(c, st, t2)
  {
  }

  // ---------------------------------------------------------------------------
  // Response side

  /** The body of an error response; `message` is "" when the body has none. */
  datatype ErrorBody = ErrorBody(message: string)

  datatype HttpResponse = HttpResponse(status: int, data: Option<ErrorBody>)

  /** An axios error: a response, or a request that got none, or neither (the request
      could not even be built), plus the error's own message ("" when absent). */
  datatype Failure = Failure(response: Option<HttpResponse>, requestSent: bool, message: string)

  /** What the thrown object carries in its `error` field. */
  datatype ErrorDetail = ResponseData(data: Option<ErrorBody>) | PendingRequest | RawError(failure: Failure)

  /** The object the interceptor throws. */
  datatype NormalizedError = NormalizedError(status: int, message: string, error: ErrorDetail)

  const MaxRetries: nat := 3
  const GenericResponseMessage: string := "An error occurred"
  const NetworkMessage: string := "Network error. Please check your connection and try again."
  const UnexpectedMessage: string := "An unexpected error occurred"

  /** A failure qualifies for a resend when nothing came back or the server answered 5xx. */
  predicate IsRetryable(f: Failure)
    ensures IsRetryable(f) <==> f.response.None? || f.response.value.status / 100 == 5
  {
    f.response.None? || 500 <= f.response.value.status <= 599
  }

  /** The wait before resend number `retry` (1-based). */
  function BackoffDelay(retry: nat): (ms: nat)
    requires 1 <= retry <= MaxRetries
    ensures ms == 1000 * retry
    ensures 1000 <= ms <= 3000
  {
    1000 * retry
  }

  /** The final failure as callers see it, and the storage after the 401 side effect. */
  function Normalize(f: Failure, st: Store): (r: (NormalizedError, Store))
    ensures f.response.Some? ==>
      r.0.status == f.response.value.status && r.0.error == ResponseData(f.response.value.data)
    ensures f.response.Some? && f.response.value.data.Some? && f.response.value.data.value.message != "" ==>
      r.0.message == f.response.value.data.value.message
    ensures f.response.Some? && (f.response.value.data.None? || f.response.value.data.value.message == "") ==>
      r.0.message == GenericResponseMessage
    ensures f.response.Some? && f.response.value.status == 401 ==>
      ApiTokenKey !in r.1 && SameExcept(st, r.1, ApiTokenKey)
    ensures f.response.None? || f.response.value.status != 401 ==> r.1 == st
    ensures f.response.None? && f.requestSent ==> r.0 == NormalizedError(0, NetworkMessage, PendingRequest)
    ensures f.response.None? && !f.requestSent ==>
      r.0.status == 0 && r.0.error == RawError(f)
      && r.0.message == (if f.message != "" then f.message else UnexpectedMessage)
    ensures r.0.message != ""
  {
    match f.response
    case Some(resp) =>
      var message := match resp.data
        case Some(b) => if b.message != "" then b.message else GenericResponseMessage
        case None => GenericResponseMessage;
      var st' := if resp.status == 401 then Delete(st, ApiTokenKey) else st;
      (NormalizedError(resp.status, message, ResponseData(resp.data)), st')
    case None =>
      if f.requestSent then (NormalizedError(0, NetworkMessage, PendingRequest), st)
      else (NormalizedError(0, if f.message != "" then f.message else UnexpectedMessage, RawError(f)), st)
  }

  /** The 401 side effect clears the HTTP client's `token` key only; the session's
      `auth-token` and role marker stay where they were. */
  lemma UnauthorizedKeepsSession(f: Failure, st: Store)
    requires f.response.Some? && f.response.value.status == 401
    ensures var st' := Normalize(f, st).1;
      Get(st', AuthTokenKey) == Get(st, AuthTokenKey) && Get(st', UserRoleKey) == Get(st, UserRoleKey)
  {
  }

  datatype Decision = Resend(retryCount: nat, delayMs: nat) | Reject(err: NormalizedError, storage: Store)

  /** The response interceptor's error handler, given the request's retry counter so far. */
  function OnResponseError(f: Failure, retryCount: nat, st: Store): (d: Decision)
    ensures d.Resend? <==> IsRetryable(f) && retryCount < MaxRetries
    ensures d.Resend? ==> d.retryCount == retryCount + 1 && d.delayMs == 1000 * d.retryCount
    ensures d.Reject? ==> (d.err, d.storage) == Normalize(f, st)
  {
    if IsRetryable(f) && retryCount < MaxRetries then
      Resend(retryCount + 1, BackoffDelay(retryCount + 1))
    else
      var (e, st') := Normalize(f, st);
      Reject(e, st')
  }

  /** A 4xx failure is never resent, whatever the counter says. */
  lemma ClientErrorsAreNotResent(f: Failure, retryCount: nat, st: Store)
    requires f.response.Some? && 400 <= f.response.value.status <= 499
    ensures OnResponseError(f, retryCount, st).Reject?
  {
  }

  // ---------------------------------------------------------------------------
  // One logical request

  datatype Attempt<T> = Delivered(data: T) | Failed(failure: Failure)

  datatype RequestOutcome<T> = RequestOutcome(
    result: Result<T, NormalizedError>,
    attempts: nat,
    delays: seq<nat>,
    storage: Store)

  /** Runs one request through the interceptors: the first attempt and every resend the
      response interceptor asks for, with the waits between them. */
  method Send<T>(transport: nat -> Attempt<T>, st: Store) returns (out: RequestOutcome<T>)
    ensures 1 <= out.attempts <= MaxRetries + 1
    ensures |out.delays| == out.attempts - 1
    ensures forall k :: 0 <= k < |out.delays| ==> out.delays[k] == 1000 * (k + 1)
    ensures forall k :: 0 <= k < out.attempts - 1 ==>
      transport(k).Failed? && IsRetryable(transport(k).failure)
    ensures out.result.Ok? <==> transport(out.attempts - 1).Delivered?
    ensures out.result.Ok? ==> out.result.value == transport(out.attempts - 1).data && out.storage == st
    ensures out.result.Err? ==>
      (out.result.error, out.storage) == Normalize(transport(out.attempts - 1).failure, st)
    ensures out.result.Err? && out.attempts <= MaxRetries ==>
      !IsRetryable(transport(out.attempts - 1).failure)
  {
    var count: nat := 0;
    var delays: seq<nat> := [];
    while true
      invariant count <= MaxRetries
      invariant |delays| == count
      invariant forall k :: 0 <= k < count ==> delays[k] == 1000 * (k + 1)
      invariant forall k :: 0 <= k < count ==> transport(k).Failed? && IsRetryable(transport(k).failure)
      decreases MaxRetries - count
    {
      match transport(count)
      case Delivered(data) =>
        return RequestOutcome(Ok(data), count + 1, delays, st);
      case Failed(f) =>
        var d := OnResponseError(f, count, st);
        match d
        case Reject(e, st') =>
          return RequestOutcome(Err(e), count + 1, delays, st');
        case Resend(next, wait) =>
          delays := delays + [wait];
          count := next;
    }
  }
}
