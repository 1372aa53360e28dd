/** The frontend HTTP client: the base URL choice, the request interceptor
    that adds headers, and the error interceptor with its 401 handling and
    retry decision. Browser storage and the location are fields of a state
    object; clocks and timers become parameters and recorded delays. */
module ApiClient {
  import opened Common

  /** `getAPIBaseURL`: `VITE_API_URL` when it is set to a non-empty string
      (the `||` tests truthiness), else the build's default. */
  function GetAPIBaseURL(prod: bool, viteApiUrl: Option<string>): (url: string)
    ensures viteApiUrl.Some? && viteApiUrl.value != "" ==> url == viteApiUrl.value
    ensures (viteApiUrl.None? || viteApiUrl == Some("")) ==>
              url == (if prod then "https://your-domain.com/api" else "http://localhost:8082/api")
  {
    if viteApiUrl.Some? && viteApiUrl.value != "" then viteApiUrl.value
    else if prod then "https://your-domain.com/api"
    else "http://localhost:8082/api"
  }

  const MaxRetries: int := 3
  const RetryDelay: int := 1000
  const AcceptLanguage: string := "tr-TR,tr;q=0.9,en;q=0.8"
  const LoginPage: string := "/giris"

  /** What the interceptor reads of an axios error: its `code`, and the
      response status when there is a response. */
  datatype AxiosError = AxiosError(code: Option<string>, status: Option<int>)

  /** `shouldRetry`: the two error codes and a server error retry; an error
      with neither a code nor a response does not. */
  predicate ShouldRetry(e: AxiosError)
    ensures e.code == Some("NETWORK_ERROR") || e.code == Some("TIMEOUT") ==> ShouldRetry(e)
    ensures e.status.Some? && e.status.value >= 500 ==> ShouldRetry(e)
    ensures e.code.None? && e.status.None? ==> !ShouldRetry(e)
  {
    e.code == Some("NETWORK_ERROR") || e.code == Some("TIMEOUT") || (e.status.Some? && e.status.value >= 500)
  }

  /** A response with a status below 500 is retried only for the two error codes. */
  lemma ClientErrorsNeverRetry(e: AxiosError)
    requires e.status.Some? && e.status.value < 500
    ensures ShouldRetry(e) <==> e.code == Some("NETWORK_ERROR") || e.code == Some("TIMEOUT")
  {
  }

  /** The stored token when it is truthy (present and not empty). */
  function StoredToken(storage: map<string, string>): (t: Option<string>)
    ensures t.Some? <==> "token" in storage && storage["token"] != ""
    ensures t.Some? ==> t.value == storage["token"]
  {
    if "token" in storage && storage["token"] != "" then Some(storage["token"]) else None
  }

  /** The headers after the request interceptor: `Authorization` set to the
      bearer token exactly when a truthy token is stored, `Accept-Language`
      always set, every other header as it was. */
  function RequestHeaders(headers: map<string, string>, storage: map<string, string>): (h: map<string, string>)
    ensures "Accept-Language" in h && h["Accept-Language"] == AcceptLanguage
    ensures StoredToken(storage).Some? ==> "Authorization" in h && h["Authorization"] == "Bearer " + StoredToken(storage).value
    ensures StoredToken(storage).None? ==>
              ("Authorization" in h <==> "Authorization" in headers)
              && ("Authorization" in h ==> h["Authorization"] == headers["Authorization"])
    ensures forall k :: k != "Authorization" && k != "Accept-Language" ==>
              (k in h <==> k in headers) && (k in h ==> h[k] == headers[k])
  {
    var withAuth := match StoredToken(storage)
      case Some(t) => headers["Authorization" := "Bearer " + t]
      case None => headers;
    withAuth["Accept-Language" := AcceptLanguage]
  }

  /** The browser state the client touches. */
  class Browser {
    var storage: map<string, string>
    var location: string

    constructor (storage: map<string, string>, location: string)
      ensures this.storage == storage && this.location == location
    {
      this.storage := storage;
      this.location := location;
    }
  }

  /** An axios request config with the fields the interceptors add:
      `_retry` (unset reads as false), `_retryCount` (unset is `None`) and
      the timing metadata. */
  class RequestConfig {
    var headers: map<string, string>
    var retry: bool
    var retryCount: Option<int>
    var startTime: Option<int>

    constructor (headers: map<string, string>)
      ensures this.headers == headers && !retry && retryCount.None? && startTime.None?
    {
      this.headers := headers;
      retry := false;
      retryCount := None;
      startTime := None;
    }
  }

  /** The request interceptor. */
  method OnRequest(config: RequestConfig, browser: Browser, now: int)
    modifies config
    ensures config.headers == RequestHeaders(old(config.headers), browser.storage)
    ensures config.startTime == Some(now)
    ensures config.retry == old(config.retry) && config.retryCount == old(config.retryCount)
  {
    var token := StoredToken(browser.storage);
    if token.Some? {
      config.headers := config.headers["Authorization" := "Bearer " + token.value];
    }
    config.startTime := Some(now);
    config.headers := config.headers["Accept-Language" := AcceptLanguage];
  }

  /** JavaScript `<` with an unset left operand: `undefined < n` is false. */
  predicate LessThan(x: Option<int>, n: int)
  {
    x.Some? && x.value < n
  }

  /** JavaScript `x || 0` for an unset or numeric `x`. */
  function OrZero(x: Option<int>): int
  {
    if x.None? then 0 else x.value
  }

  /** What the error interceptor does with a failed request. */
  datatype Decision =
    /** Clear the session, go to the login page, reject. */
    | Wipe
    /** Mark the request, record the new count, wait, and send it again. */
    | Resubmit(retry: bool, retryCount: int, delay: int)
    /** Reject with the error unchanged. */
    | Reject

  /** The error interceptor's decision, as the code is written: the retry
      gate compares the count itself, so an unset count never passes. */
  function Decide(e: AxiosError, retry: bool, retryCount: Option<int>): (d: Decision)
    ensures d == Wipe <==> e.status == Some(401) && !retry
    ensures d.Resubmit? <==> e.status != Some(401) && ShouldRetry(e) && !retry && retryCount.Some? && retryCount.value < MaxRetries
    ensures d.Resubmit? ==> d.retry && d.retryCount == retryCount.value + 1 && d.delay == RetryDelay * d.retryCount
  {
    if e.status == Some(401) && !retry then Wipe
    else if ShouldRetry(e) && !retry && LessThan(retryCount, MaxRetries) then
      var n := OrZero(retryCount) + 1;
      Resubmit(true, n, RetryDelay * n)
    else Reject
  }

  /** The reply of the error interceptor. */
  datatype Outcome = Rejected(error: AxiosError) | Resubmitted(delay: int)

  /** The error interceptor. */
  method OnResponseError(e: AxiosError, config: RequestConfig, browser: Browser) returns (out: Outcome)
    modifies config, browser
    ensures match Decide(e, old(config.retry), old(config.retryCount))
            case Wipe =>
              && out == Rejected(e)
              && browser.storage == old(browser.storage) - {"token", "user"} && browser.location == LoginPage
              && config.retry == old(config.retry) && config.retryCount == old(config.retryCount)
            case Resubmit(r, n, d) =>
              && out == Resubmitted(d)
              && config.retry == r && config.retryCount == Some(n)
              && browser.storage == old(browser.storage) && browser.location == old(browser.location)
            case Reject =>
              && out == Rejected(e)
              && config.retry == old(config.retry) && config.retryCount == old(config.retryCount)
              && browser.storage == old(browser.storage) && browser.location == old(browser.location)
    ensures config.headers == old(config.headers) && config.startTime == old(config.startTime)
  {
    if e.status == Some(401) && !config.retry {
      browser.storage := browser.storage - {"token"};
      browser.storage := browser.storage - {"user"};
      browser.location := LoginPage;
      return Rejected(e);
    }
    if ShouldRetry(e) && !config.retry && LessThan(config.retryCount, MaxRetries) {
      config.retry := true;
      config.retryCount := Some(OrZero(config.retryCount) + 1);
      return Resubmitted(RetryDelay * config.retryCount.value);
    }
    out := Rejected(e);
  }

  /** The delays of the resubmissions a request goes through when every
      attempt fails with `e`, for at most `attempts` failures. */
  function Resubmissions(decide: (AxiosError, bool, Option<int>) -> Decision, e: AxiosError, retry: bool, retryCount: Option<int>, attempts: nat): seq<int>
    decreases attempts
  {
    if attempts == 0 then []
    else match decide(e, retry, retryCount)
      case Resubmit(r, n, d) => [d] + Resubmissions(decide, e, r, Some(n), attempts - 1)
      case _ => []
  }

  /** As written, a fresh request (no `_retry`, no `_retryCount`) is never resubmitted. */
  lemma FreshRequestNeverResubmitted(e: AxiosError, attempts: nat)
    ensures Resubmissions(Decide, e, false, None, attempts) == []
  {
  }

  /** As written, no request is resubmitted more than once: the first
      resubmission sets `_retry`, which closes the gate. */
  lemma AtMostOneResubmission(e: AxiosError, retry: bool, retryCount: Option<int>, attempts: nat)
    ensures |Resubmissions(Decide, e, retry, retryCount, attempts)| <= 1
  {
    if attempts > 0 {
      match Decide(e, retry, retryCount)
      case Resubmit(r, n, d) =>
        if attempts > 1 {
          assert !Decide(e, r, Some(n)).Resubmit?;
        }
      case _ =>
    }
  }

  /** The decision with the retry gate the three-step backoff needs: an
      unset count reads as 0 and the gate looks only at the count. */
  function DecideCorrected(e: AxiosError, retry: bool, retryCount: Option<int>): (d: Decision)
    ensures d == Wipe <==> e.status == Some(401) && !retry
    ensures d.Resubmit? <==> !(e.status == Some(401) && !retry) && ShouldRetry(e) && OrZero(retryCount) < MaxRetries
    ensures d.Resubmit? ==> d.retry && d.retryCount == OrZero(retryCount) + 1 && d.delay == RetryDelay * d.retryCount
  {
    if e.status == Some(401) && !retry then Wipe
    else if ShouldRetry(e) && OrZero(retryCount) < MaxRetries then
      var n := OrZero(retryCount) + 1;
      Resubmit(true, n, RetryDelay * n)
    else Reject
  }

  /** With the corrected gate, a fresh request failing with a retryable
      error is sent again three times, after 1000, 2000 and 3000 ms, and
      then rejected. */
  lemma CorrectedBacksOffThreeTimes(e: AxiosError, attempts: nat)
    requires ShouldRetry(e) && e.status != Some(401)
    requires attempts >= 4
    ensures Resubmissions(DecideCorrected, e, false, None, attempts) == [1000, 2000, 3000]
  {
    var a := attempts;
    assert Resubmissions(DecideCorrected, e, true, Some(3), a - 3) == [];
    assert Resubmissions(DecideCorrected, e, true, Some(2), a - 2) == [3000];
    assert Resubmissions(DecideCorrected, e, true, Some(1), a - 1) == [2000, 3000];
  }
}
