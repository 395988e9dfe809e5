/**
 * The retry state machine of `retry_request` and the file write of
 * `download_file`. The network is a script: `net(k)` is what the k-th
 * attempt (0-based) observes. Sleeps are recorded, in whole delay units,
 * instead of being slept.
 */
module Http {
  import opened Wrappers
  import opened Paths
  import opened Common

  /** What one `urlopen` call observes. */
  datatype Outcome =
    | Success(body: Bytes)           // a response whose body is `body`
    | HttpErrorOutcome(code: int)    // `HTTPError` with status `code`
    | ConnectionError(reason: string) // `URLError` that is not an `HTTPError`
    | Unexpected(reason: string)     // any other exception: not caught, so it propagates

  /** A client error that is not worth retrying: 4xx other than 429 (too many requests) and 408 (timeout). */
  predicate IsFatalStatus(code: int) {
    400 <= code < 500 && code != 429 && code != 408
  }

  /** An outcome that ends the loop at once: success, a fatal status, or an uncaught exception. */
  predicate Terminal(o: Outcome) {
    o.Success? || o.Unexpected? || (o.HttpErrorOutcome? && IsFatalStatus(o.code))
  }

  /** The exception an unsuccessful attempt raises or records. */
  function ErrorOf(o: Outcome): Error
    requires !o.Success?
  {
    match o
    case HttpErrorOutcome(code) => HttpStatus(code)
    case ConnectionError(reason) => UrlFailure(reason)
    case Unexpected(reason) => OtherFailure(reason)
  }

  /** What a terminal attempt makes `retry_request` return or raise. */
  function TerminalResult(o: Outcome): Result<Bytes>
    requires Terminal(o)
  {
    if o.Success? then Ok(o.body) else Err(ErrorOf(o))
  }

  function Max0(n: int): nat { if n < 0 then 0 else n }

  function Pow2(k: nat): nat { if k == 0 then 1 else 2 * Pow2(k - 1) }

  /** The first `n` exponential-backoff delays: `delay`, `2 * delay`, `4 * delay`, ... */
  function Backoff(delay: nat, n: nat): (s: seq<nat>)
    ensures |s| == n
  {
    seq(n, k requires 0 <= k < n => delay * Pow2(k))
  }

  /** The first index in `[from, bound)` whose outcome is terminal, or `bound` when there is none. */
  function FirstTerminal(net: nat -> Outcome, from: nat, bound: nat): (k: nat)
    requires from <= bound
    ensures from <= k <= bound
    ensures forall j :: from <= j < k ==> !Terminal(net(j))
    ensures k < bound ==> Terminal(net(k))
    decreases bound - from
  {
    if from == bound then bound
    else if Terminal(net(from)) then from
    else FirstTerminal(net, from + 1, bound)
  }

  /** What one call of `retry_request` does: its result, how many attempts it made, and the sleeps between them. */
  datatype RetryRun = RetryRun(result: Result<Bytes>, attempts: nat, sleeps: seq<nat>)

  /**
   * The reference behaviour of `retry_request(url, max_retries, retry_delay)`:
   * attempts run until the first terminal outcome or until `max_retries`
   * attempts were made; every attempt except the last is followed by a
   * doubling sleep; when every attempt failed retryably the last error is
   * raised, and without any attempt a generic `URLError` is.
   */
  function Retry(net: nat -> Outcome, url: string, maxRetries: int, retryDelay: nat): RetryRun {
    var n := Max0(maxRetries);
    var k := FirstTerminal(net, 0, n);
    if k < n then RetryRun(TerminalResult(net(k)), k + 1, Backoff(retryDelay, k))
    else if n > 0 then RetryRun(Err(ErrorOf(net(n - 1))), n, Backoff(retryDelay, n - 1))
    else RetryRun(Err(RetriesExhausted(url, maxRetries)), 0, [])
  }

  /** `retry_request`: the loop over attempts with `last_error` and the doubling `delay`. */
  method RetryRequest(net: nat -> Outcome, url: string, maxRetries: int, retryDelay: nat)
    returns (result: Result<Bytes>, attempts: nat, sleeps: seq<nat>)
    ensures RetryRun(result, attempts, sleeps) == Retry(net, url, maxRetries, retryDelay)
  {
    var lastError: Option<Error> := None;
    var delay := retryDelay;
    sleeps := [];
    attempts := 0;
    var attempt := 0;
    while attempt < maxRetries
      invariant 0 <= attempt <= Max0(maxRetries)
      invariant attempts == attempt
      invariant forall j :: 0 <= j < attempt ==> !Terminal(net(j))
      invariant lastError == if attempt == 0 then None else Some(ErrorOf(net(attempt - 1)))
      invariant attempt < maxRetries ==> sleeps == Backoff(retryDelay, attempt) && delay == retryDelay * Pow2(attempt)
      invariant attempt >= maxRetries ==> sleeps == Backoff(retryDelay, if attempt == 0 then 0 else attempt - 1)
      decreases maxRetries - attempt
    {
      attempts := attempts + 1;
      var outcome := net(attempt);
      if Terminal(outcome) {
        result := TerminalResult(outcome);
        FirstTerminalAt(net, 0, Max0(maxRetries), attempt);
        return;
      }
      lastError := Some(ErrorOf(outcome));
      if attempt < maxRetries - 1 {
        sleeps := sleeps + [delay];
        delay := delay * 2;
      }
      attempt := attempt + 1;
    }
    FirstTerminalNone(net, 0, Max0(maxRetries));
    if lastError.Some? {
      result := Err(lastError.value);
    } else {
      result := Err(RetriesExhausted(url, maxRetries));
    }
  }

  // ---------------------------------------------------------------------------
  // Properties of the retry behaviour

  /** At most `max_retries` attempts; one sleep fewer than attempts; the k-th sleep is `retry_delay * 2^k`. */
  lemma RetryBounds(net: nat -> Outcome, url: string, maxRetries: int, retryDelay: nat)
    ensures var run := Retry(net, url, maxRetries, retryDelay);
      && run.attempts <= Max0(maxRetries)
      && |run.sleeps| == (if run.attempts == 0 then 0 else run.attempts - 1)
      && forall k :: 0 <= k < |run.sleeps| ==> run.sleeps[k] == retryDelay * Pow2(k)
  {
  }

  /** The first index with a given property is that index, whatever the search bound beyond it. */
  lemma {:induction false} FirstTerminalAt(net: nat -> Outcome, from: nat, bound: nat, k: nat)
    requires from <= k < bound
    requires forall j :: from <= j < k ==> !Terminal(net(j))
    requires Terminal(net(k))
    ensures FirstTerminal(net, from, bound) == k
    decreases k - from
  {
    if from < k {
      FirstTerminalAt(net, from + 1, bound, k);
    }
  }

  /** No terminal outcome before `bound`: the search runs to the end. */
  lemma {:induction false} FirstTerminalNone(net: nat -> Outcome, from: nat, bound: nat)
    requires from <= bound
    requires forall j :: from <= j < bound ==> !Terminal(net(j))
    ensures FirstTerminal(net, from, bound) == bound
    decreases bound - from
  {
    if from < bound {
      FirstTerminalNone(net, from + 1, bound);
    }
  }

  /** The first successful attempt within the budget is returned at once, after `k` sleeps. */
  lemma FirstSuccessReturned(net: nat -> Outcome, url: string, maxRetries: int, retryDelay: nat, k: nat)
    requires k < maxRetries
    requires forall j :: 0 <= j < k ==> !Terminal(net(j))
    requires net(k).Success?
    ensures Retry(net, url, maxRetries, retryDelay) == RetryRun(Ok(net(k).body), k + 1, Backoff(retryDelay, k))
  {
    FirstTerminalAt(net, 0, Max0(maxRetries), k);
  }

  /** A fatal client error is raised at once: no further attempt and no sleep after it. */
  lemma FatalStatusRaisedAtOnce(net: nat -> Outcome, url: string, maxRetries: int, retryDelay: nat, k: nat)
    requires k < maxRetries
    requires forall j :: 0 <= j < k ==> !Terminal(net(j))
    requires net(k).HttpErrorOutcome? && IsFatalStatus(net(k).code)
    ensures Retry(net, url, maxRetries, retryDelay) == RetryRun(Err(HttpStatus(net(k).code)), k + 1, Backoff(retryDelay, k))
  {
    FirstTerminalAt(net, 0, Max0(maxRetries), k);
  }

  /** Server errors, 429, 408 and connection errors are retried: they never end the loop by themselves. */
  lemma RetryableOutcomes(o: Outcome)
    ensures o.HttpErrorOutcome? && (500 <= o.code < 600 || o.code == 429 || o.code == 408) ==> !Terminal(o)
    ensures o.ConnectionError? ==> !Terminal(o)
    ensures o.HttpErrorOutcome? && 400 <= o.code < 500 && o.code != 429 && o.code != 408 ==> Terminal(o)
  {
  }

  /**
   * When every attempt fails retryably, all `max_retries` attempts are made,
   * `max_retries - 1` sleeps happen, and the error of the last attempt is raised.
   */
  lemma ExhaustedRaisesLastError(net: nat -> Outcome, url: string, maxRetries: int, retryDelay: nat)
    requires maxRetries > 0
    requires forall j :: 0 <= j < maxRetries ==> !Terminal(net(j))
    ensures Retry(net, url, maxRetries, retryDelay)
      == RetryRun(Err(ErrorOf(net(maxRetries - 1))), maxRetries, Backoff(retryDelay, maxRetries - 1))
  {
    FirstTerminalNone(net, 0, maxRetries);
  }

  /** Without any allowed attempt nothing is fetched and the generic "after N attempts" error is raised. */
  lemma NoAttemptsWithoutRetries(net: nat -> Outcome, url: string, maxRetries: int, retryDelay: nat)
    requires maxRetries <= 0
    ensures Retry(net, url, maxRetries, retryDelay) == RetryRun(Err(RetriesExhausted(url, maxRetries)), 0, [])
  {
  }

  /** A server that always answers 503, asked three times one unit apart: three attempts, sleeps of 1 and 2, and the 503 is raised. */
  lemma AlwaysUnavailableExample(url: string)
    ensures Retry((k: nat) => HttpErrorOutcome(503), url, 3, 1) == RetryRun(Err(HttpStatus(503)), 3, [1, 2])
  {
    var net := (k: nat) => HttpErrorOutcome(503);
    FirstTerminalNone(net, 0, 3);
    assert Pow2(1) == 2;
    assert Backoff(1, 2) == [1, 2];
  }

  // ---------------------------------------------------------------------------
  // download_file

  /**
   * `download_file(url, output_path, max_retries)`: fetches with the default
   * one-unit retry delay and writes the whole response body to
   * `output_path`, which it returns. When the fetch raises, nothing is written.
   */
  method DownloadFile(disk: Disk, net: nat -> Outcome, url: string, outputPath: Path, maxRetries: int)
    returns (disk': Disk, result: Result<Path>)
    ensures var run := Retry(net, url, maxRetries, 1);
      match run.result
      case Ok(body) => disk' == disk[outputPath := body] && result == Ok(outputPath)
      case Err(e) => disk' == disk && result == Err(e)
  {
    var response, _, _ := RetryRequest(net, url, maxRetries, 1);
    match response {
      case Ok(body) =>
        disk' := disk[outputPath := body];
        result := Ok(outputPath);
      case Err(e) =>
        disk' := disk;
        result := Err(e);
    }
  }
}
