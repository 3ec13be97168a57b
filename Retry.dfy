/**
  The carrier adapter's fetch with retries (`fetchTextWithRetry`) and its mirror
  fallback (the `urlsToTry` loop).

  The network is an oracle `Net`: the outcome of the request with a given running
  number to a given URL. Every run reports how many requests it made, so that a
  caller can number the requests that follow, and records the back-off delays it
  slept, in milliseconds, as a ghost log.
*/
module Retry {
  import opened Wrappers
  import opened Json
  import opened Text

  /** What `await fetch(url)` followed by `await res.text()` produces: a thrown
      error (network failure, aborted body) or a response. */
  datatype HttpOutcome =
    | Threw(reason: string)
    | Responded(ok: bool, status: int, statusText: string, body: string)

  /** The value thrown by `fetchTextWithRetry`: an `Error` with its message, or
      `undefined` when no attempt was made. */
  datatype FetchError = Error(message: string) | Undefined

  type Net = (nat, string) -> HttpOutcome

  // ------------------------------------------------ the internal-error marker

  const MarkerHead: string := "internal error;"
  const MarkerTail: string := "reference="
  const MarkerFallback: string := "Google News internal error"

  /** ASCII case folding: what the `i` flag does for a pattern of ASCII letters. */
  function Fold(c: char): char {
    if 'A' <= c <= 'Z' then (c as int + 32) as char else c
  }

  /** `p` occurs at `i` in `s`, ignoring ASCII case. */
  predicate OccursAtFold(s: string, p: string, i: nat) {
    i + |p| <= |s| && forall k :: 0 <= k < |p| ==> Fold(s[i + k]) == Fold(p[k])
  }

  /** The end of the run of white space (`\s*`, greedy) that starts at `i`. */
  function SkipSpaces(s: string, i: nat): (r: nat)
    requires i <= |s|
    ensures i <= r <= |s| && AllSpace(s[i..r])
    ensures r < |s| ==> !IsSpace(s[r])
    decreases |s| - i
  {
    if i < |s| && IsSpace(s[i]) then
      var r := SkipSpaces(s, i + 1);
      assert s[i..r] == [s[i]] + s[i + 1..r];
      r
    else i
  }

  /** `/internal error;\s*reference=/i` matches at `i`. */
  predicate MarkerAt(s: string, i: nat) {
    OccursAtFold(s, MarkerHead, i) && OccursAtFold(s, MarkerTail, SkipSpaces(s, i + |MarkerHead|))
  }

  ghost predicate HasMarker(s: string) {
    exists i: nat :: MarkerAt(s, i)
  }

  /** Greedy `\s*` loses nothing: the marker matches at `i` exactly when some run
      of white space, of any length, separates its two halves. */
  lemma MarkerAtAnySpacing(s: string, i: nat, r: nat)
    requires OccursAtFold(s, MarkerHead, i)
    requires i + |MarkerHead| <= r <= |s| && AllSpace(s[i + |MarkerHead|..r])
    ensures MarkerAt(s, i) <== OccursAtFold(s, MarkerTail, r)
    ensures OccursAtFold(s, MarkerTail, r) <== MarkerAt(s, i) && r == SkipSpaces(s, i + |MarkerHead|)
  {
    var a := i + |MarkerHead|;
    var t := SkipSpaces(s, a);
    if OccursAtFold(s, MarkerTail, r) {
      assert Fold(s[r + 0]) == Fold(MarkerTail[0]) == 'r';
      assert r == t;
    }
  }

  /** The leftmost match of the marker at or after `from`. */
  function FindMarker(s: string, from: nat): (r: Option<nat>)
    ensures r.Some? ==> from <= r.value
    decreases |s| - from
  {
    if from + |MarkerHead| > |s| then None
    else if MarkerAt(s, from) then Some(from)
    else FindMarker(s, from + 1)
  }

  /** `FindMarker` finds a match of the marker, and answers `None` only when there
      is none at or after `from`. */
  lemma {:induction false} FindMarkerSound(s: string, from: nat)
    ensures FindMarker(s, from).Some? ==> MarkerAt(s, FindMarker(s, from).value)
    ensures FindMarker(s, from).None? ==> forall i: nat :: from <= i ==> !MarkerAt(s, i)
    decreases |s| - from
  {
    if from + |MarkerHead| <= |s| && !MarkerAt(s, from) {
      FindMarkerSound(s, from + 1);
    }
  }

  /** `[^\s<]`: a character of the reference id. */
  predicate RefChar(c: char) {
    !IsSpace(c) && c != '<'
  }

  /** The end of the greedy run `[^\s<]+` that starts at `i`. */
  function RefEnd(s: string, i: nat): (r: nat)
    requires i <= |s|
    ensures i <= r <= |s|
    ensures forall k :: i <= k < r ==> RefChar(s[k])
    ensures r < |s| ==> !RefChar(s[r])
    decreases |s| - i
  {
    if i < |s| && RefChar(s[i]) then RefEnd(s, i + 1) else i
  }

  /** Where the reference id starts after the marker matched at `i`. */
  function RefStart(s: string, i: nat): nat
    requires MarkerAt(s, i)
  {
    SkipSpaces(s, i + |MarkerHead|) + |MarkerTail|
  }

  /** `/internal error;\s*reference=[^\s<]+/i` matches at `i`. */
  predicate MessageAt(s: string, i: nat) {
    MarkerAt(s, i) && RefStart(s, i) < |s| && RefChar(s[RefStart(s, i)])
  }

  function FindMessage(s: string, from: nat): (r: Option<nat>)
    ensures r.Some? ==> from <= r.value
    decreases |s| - from
  {
    if from + |MarkerHead| > |s| then None
    else if MessageAt(s, from) then Some(from)
    else FindMessage(s, from + 1)
  }

  /** `bodyText.match(/internal error;\s*reference=[^\s<]+/i)?.[0] || 'Google News internal error'`:
      the matched text, in its original case, or the fallback text. */
  lemma {:induction false} FindMessageSound(s: string, from: nat)
    ensures FindMessage(s, from).Some? ==> MessageAt(s, FindMessage(s, from).value)
    ensures FindMessage(s, from).None? ==> forall i: nat :: from <= i ==> !MessageAt(s, i)
    decreases |s| - from
  {
    if from + |MarkerHead| <= |s| && !MessageAt(s, from) {
      FindMessageSound(s, from + 1);
    }
  }

  function MarkerMessage(s: string): string {
    match FindMessage(s, 0)
    case None => MarkerFallback
    case Some(i) =>
      FindMessageSound(s, 0);
      s[i..RefEnd(s, RefStart(s, i))]
  }

  /** The thrown text is never empty: it is the fallback text when no reference id
      follows the marker, and otherwise the leftmost `internal error; reference=<id>`
      of the body in its original case, with the whole id. */
  lemma MarkerMessageLaws(s: string)
    ensures MarkerMessage(s) != ""
    ensures (forall i: nat :: !MessageAt(s, i)) ==> MarkerMessage(s) == MarkerFallback
    ensures FindMessage(s, 0).Some? ==>
              var i := FindMessage(s, 0).value;
              var r := MarkerMessage(s);
              && OccursAtFold(r, MarkerHead, 0)
              && (forall j: nat :: j < i ==> !MessageAt(s, j))
              && MessageAt(s, i)
              && r == s[i..RefEnd(s, RefStart(s, i))]
              && (RefEnd(s, RefStart(s, i)) < |s| ==> !RefChar(s[RefEnd(s, RefStart(s, i))]))
  {
    FindMessageSound(s, 0);
    match FindMessage(s, 0)
    case None =>
    case Some(i) =>
      assert MarkerMessage(s) == s[i..RefEnd(s, RefStart(s, i))];
      MatchedText(s, i);
      FindMessageFirst(s, 0);
  }

  /** The text matched at `i` starts with the marker's first half. */
  lemma MatchedText(s: string, i: nat)
    requires MessageAt(s, i)
    ensures var r := s[i..RefEnd(s, RefStart(s, i))];
      |r| > |MarkerHead| && OccursAtFold(r, MarkerHead, 0)
  {
    var e := RefEnd(s, RefStart(s, i));
    var r := s[i..e];
    forall k | 0 <= k < |MarkerHead|
      ensures Fold(r[k]) == Fold(MarkerHead[k])
    {
      assert r[k] == s[i + k];
    }
  }

  lemma {:induction false} FindMessageFirst(s: string, from: nat)
    requires FindMessage(s, from).Some?
    ensures forall j: nat :: from <= j < FindMessage(s, from).value ==> !MessageAt(s, j)
    decreases |s| - from
  {
    if !MessageAt(s, from) {
      FindMessageFirst(s, from + 1);
    }
  }

  // -------------------------------------------------------------- one attempt

  /** `bodyText.slice(0, 300)`: the first 300 characters of the body, or all of it
      when it is shorter. */
  function Snippet(body: string): (r: string)
    ensures |r| <= 300 && r <= body
    ensures |body| <= 300 ==> r == body
    ensures |body| > 300 ==> |r| == 300
  {
    if |body| <= 300 then body else body[..300]
  }

  /** The message of the error thrown for a response that is not OK. */
  function HttpMessage(status: int, statusText: string, body: string): string {
    "HTTP " + IntToDecimal(status) + " " + statusText + ": " + Snippet(body)
  }

  /** One pass through the body of the `try`: the body text of an OK response free
      of the marker, otherwise the error it throws. */
  function Attempt(o: HttpOutcome): Result<string, FetchError> {
    match o
    case Threw(reason) => Failure(Error(reason))
    case Responded(ok, status, statusText, body) =>
      if !ok then Failure(Error(HttpMessage(status, statusText, body)))
      else if FindMarker(body, 0).Some? then Failure(Error(MarkerMessage(body)))
      else Success(body)
  }

  /** An attempt succeeds exactly on an OK response whose body is free of the
      marker, and then yields that body; a response that is not OK throws its
      status, and an OK one with the marker throws the marker's text. */
  lemma AttemptLaws(o: HttpOutcome)
    ensures Attempt(o).Success? <==> o.Responded? && o.ok && !HasMarker(o.body)
    ensures Attempt(o).Success? ==> Attempt(o).value == o.body
    ensures Attempt(o).Failure? ==> Attempt(o).error.Error?
    ensures o.Responded? && !o.ok ==> Attempt(o).error.message == HttpMessage(o.status, o.statusText, o.body)
    ensures o.Responded? && o.ok && HasMarker(o.body) ==> Attempt(o).error.message == MarkerMessage(o.body)
  {
    if o.Responded? {
      FindMarkerSound(o.body, 0);
    }
  }

  /** Attempt `n` on `url` fails. */
  predicate AttemptFails(net: Net, url: string, n: nat) {
    Attempt(net(n, url)).Failure?
  }

  // ------------------------------------------------------------ the retry loop

  /** A run of requests: what it produced, how many requests it made and the
      delays it slept, in order. */
  datatype Run<T> = Run(result: T, requests: nat, sleeps: seq<nat>)

  /** `k` earlier requests and the delays slept after them, followed by `run`. */
  function After<T>(k: nat, slept: seq<nat>, run: Run<T>): Run<T> {
    Run(run.result, k + run.requests, slept + run.sleeps)
  }

  /** The back-off after a failed attempt: `600 * attempt` ms, but only when
      another attempt follows. */
  function Backoff(attempt: nat, maxAttempts: nat): seq<nat> {
    if attempt < maxAttempts then [600 * attempt] else []
  }

  /** Attempts `attempt` to `maxAttempts`, numbered from request `req`, after
      `lastError` was caught. */
  function RetryFrom(net: Net, url: string, maxAttempts: nat, attempt: nat, req: nat, lastError: FetchError): Run<Result<string, FetchError>>
    requires attempt >= 1
    decreases maxAttempts + 1 - attempt
  {
    if attempt > maxAttempts then Run(Failure(lastError), 0, [])
    else
      match Attempt(net(req, url))
      case Success(body) => Run(Success(body), 1, [])
      case Failure(e) =>
        After(1, Backoff(attempt, maxAttempts), RetryFrom(net, url, maxAttempts, attempt + 1, req + 1, e))
  }

  /** `fetchTextWithRetry(url, options, maxAttempts)` with its first request
      numbered `req`. */
  function Retry(net: Net, url: string, maxAttempts: nat, req: nat): Run<Result<string, FetchError>> {
    RetryFrom(net, url, maxAttempts, 1, req, Undefined)
  }

  method FetchTextWithRetry(net: Net, url: string, maxAttempts: nat, req: nat)
    returns (text: Result<string, FetchError>, requests: nat, ghost sleeps: seq<nat>)
    ensures Run(text, requests, sleeps) == Retry(net, url, maxAttempts, req)
  {
    var lastError := Undefined;
    var attempt := 1;
    requests, sleeps := 0, [];
    while attempt <= maxAttempts
      invariant 1 <= attempt && requests == attempt - 1
      invariant Retry(net, url, maxAttempts, req) ==
                After(requests, sleeps, RetryFrom(net, url, maxAttempts, attempt, req + requests, lastError))
      decreases maxAttempts + 1 - attempt
    {
      var outcome := net(req + requests, url);
      var r := Attempt(outcome);
      if r.Success? {
        return r, requests + 1, sleeps;
      }
      ghost var rest := RetryFrom(net, url, maxAttempts, attempt + 1, req + requests + 1, r.error);
      lastError := r.error;
      assert sleeps + (Backoff(attempt, maxAttempts) + rest.sleeps) == sleeps + Backoff(attempt, maxAttempts) + rest.sleeps;
      if attempt < maxAttempts {
        sleeps := sleeps + [600 * attempt];
      }
      requests := requests + 1;
      attempt := attempt + 1;
    }
    text := Failure(lastError);
  }

  // ---------------------------------------------------------- retry properties

  /** The loop makes between one and `maxAttempts` requests (none when
      `maxAttempts` is 0), sleeps once between each two of them, `600 * a` ms after
      attempt `a`, and never after the last. */
  lemma {:induction false} RetryFromShape(net: Net, url: string, maxAttempts: nat, attempt: nat, req: nat, lastError: FetchError)
    requires 1 <= attempt <= maxAttempts + 1
    ensures var run := RetryFrom(net, url, maxAttempts, attempt, req, lastError);
      && run.requests <= maxAttempts + 1 - attempt
      && (attempt <= maxAttempts ==> run.requests >= 1)
      && |run.sleeps| == (if run.requests == 0 then 0 else run.requests - 1)
      && forall k :: 0 <= k < |run.sleeps| ==> run.sleeps[k] == 600 * (attempt + k)
    decreases maxAttempts + 1 - attempt
  {
    if attempt <= maxAttempts && Attempt(net(req, url)).Failure? {
      var e := Attempt(net(req, url)).error;
      RetryFromShape(net, url, maxAttempts, attempt + 1, req + 1, e);
      var rest := RetryFrom(net, url, maxAttempts, attempt + 1, req + 1, e);
      var run := RetryFrom(net, url, maxAttempts, attempt, req, lastError);
      assert run.sleeps == Backoff(attempt, maxAttempts) + rest.sleeps;
      assert attempt < maxAttempts <==> rest.requests >= 1;
    }
  }

  /** The result is the first attempt that succeeds: every earlier request
      failed. When every attempt fails, the last error is thrown (`undefined` when
      there was no attempt). */
  lemma {:induction false} RetryFromResult(net: Net, url: string, maxAttempts: nat, attempt: nat, req: nat, lastError: FetchError)
    requires 1 <= attempt <= maxAttempts + 1
    ensures var run := RetryFrom(net, url, maxAttempts, attempt, req, lastError);
      && (forall n: nat :: req <= n < req + run.requests - 1 ==> AttemptFails(net, url, n))
      && (run.result.Success? ==> run.requests >= 1 && run.result == Attempt(net(req + run.requests - 1, url)))
      && (run.result.Failure? ==> run.requests == maxAttempts + 1 - attempt)
      && (run.result.Failure? && run.requests >= 1 ==> run.result == Attempt(net(req + run.requests - 1, url)))
      && (run.result.Failure? && run.requests == 0 ==> run.result == Failure(lastError))
    decreases maxAttempts + 1 - attempt
  {
    if attempt <= maxAttempts && Attempt(net(req, url)).Failure? {
      var e := Attempt(net(req, url)).error;
      RetryFromResult(net, url, maxAttempts, attempt + 1, req + 1, e);
      assert AttemptFails(net, url, req);
    }
  }

  /** `fetchTextWithRetry` makes at most `maxAttempts` requests, returns the body of
      the first OK, marker-free response, sleeps `600 * a` ms only between attempt
      `a` and attempt `a + 1`, and after exhausting its attempts throws the error of
      the last one. */
  lemma RetryLaws(net: Net, url: string, maxAttempts: nat, req: nat)
    ensures var run := Retry(net, url, maxAttempts, req);
      && run.requests <= maxAttempts
      && (maxAttempts >= 1 ==> run.requests >= 1)
      && (forall n: nat :: req <= n < req + run.requests - 1 ==> AttemptFails(net, url, n))
      && (run.result.Success? ==> run.result == Attempt(net(req + run.requests - 1, url)))
      && (run.result.Failure? ==> run.requests == maxAttempts)
      && (run.result.Failure? && maxAttempts >= 1 ==> run.result == Attempt(net(req + maxAttempts - 1, url)))
      && (maxAttempts == 0 ==> run.result == Failure(Undefined))
      && |run.sleeps| == (if run.requests == 0 then 0 else run.requests - 1)
      && forall k :: 0 <= k < |run.sleeps| ==> run.sleeps[k] == 600 * (k + 1)
  {
    RetryFromShape(net, url, maxAttempts, 1, req, Undefined);
    RetryFromResult(net, url, maxAttempts, 1, req, Undefined);
  }

  /** The status line of a 500 response. */
  lemma ServerErrorMessage(body: string)
    ensures HttpMessage(500, "Internal Server Error", body) == "HTTP 500 Internal Server Error: " + Snippet(body)
  {
    Decimal500();
    assert IntToDecimal(500) == "500";
    assert "HTTP " + "500" + " " + "Internal Server Error" + ": " == "HTTP 500 Internal Server Error: ";
  }

  lemma Decimal500()
    ensures NatToDecimal(500) == "500"
  {
    assert NatToDecimal(5) == ['5'];
    assert NatToDecimal(50) == ['5', '0'];
  }

  /** A server that always answers 500: three requests, 600 ms and 1200 ms of
      back-off (1800 ms in all), and the status error of the third attempt. */
  lemma AlwaysServerError(url: string, body: string)
    ensures var net: Net := (n: nat, u: string) => Responded(false, 500, "Internal Server Error", body);
      Retry(net, url, 3, 0) ==
      Run(Failure(Error("HTTP 500 Internal Server Error: " + Snippet(body))), 3, [600, 1200])
  {
    var o := Responded(false, 500, "Internal Server Error", body);
    var net: Net := (n: nat, u: string) => o;
    var e := Error(HttpMessage(500, "Internal Server Error", body));
    assert Attempt(o) == Failure(e);
    assert RetryFrom(net, url, 3, 3, 2, e) == Run(Failure(e), 1, []);
    assert RetryFrom(net, url, 3, 2, 1, e) == Run(Failure(e), 2, [1200]);
    assert RetryFrom(net, url, 3, 1, 0, Undefined) == Run(Failure(e), 3, [600, 1200]);
    ServerErrorMessage(body);
  }

  // --------------------------------------------------------- the mirror loop

  const GoogleNewsRss: string := "https://news.google.com/rss/"
  const MirrorPrefix: string := "https://r.jina.ai/"

  /** `urlsToTry`: the feed URL, followed by its reader-proxy mirror for Google
      News feeds. */
  function CandidateUrls(url: string): (r: seq<string>)
    ensures |r| >= 1 && r[0] == url
    ensures |r| == 2 <==> StartsWith(url, GoogleNewsRss)
    ensures |r| <= 2 && (|r| == 2 ==> r[1] == MirrorPrefix + url)
  {
    if StartsWith(url, GoogleNewsRss) then [url, MirrorPrefix + url] else [url]
  }

  /** `fetchTextWithRetry(url, options, 3)` as the mirror loop sees it: from a URL
      and the number of its first request, the run of attempts. */
  type Fetcher = (string, nat) -> Run<Result<string, FetchError>>

  function Retrier(net: Net): Fetcher {
    (u: string, req: nat) => Retry(net, u, 3, req)
  }

  /** The candidates from the one at `i` on, each fetched with `fetch`, until one
      yields a text: `text` stays `null` (`None`) when all of them fail. */
  function FirstTextFrom(fetch: Fetcher, urls: seq<string>, i: nat, req: nat): Run<Option<string>>
    requires i <= |urls|
    decreases |urls| - i
  {
    if i == |urls| then Run(None, 0, [])
    else
      var run := fetch(urls[i], req);
      if run.result.Success? then Run(Some(run.result.value), run.requests, run.sleeps)
      else After(run.requests, run.sleeps, FirstTextFrom(fetch, urls, i + 1, req + run.requests))
  }

  /** The mirror loop over `urls`, three attempts per candidate. */
  function FirstText(net: Net, urls: seq<string>, req: nat): Run<Option<string>> {
    FirstTextFrom(Retrier(net), urls, 0, req)
  }

  /** One turn of the mirror loop keeps its invariant. */
  lemma MirrorStep(fetch: Fetcher, urls: seq<string>, i: nat, req: nat, requests: nat, sleeps: seq<nat>,
                   r: Result<string, FetchError>, n: nat, slept: seq<nat>, whole: Run<Option<string>>,
                   requests': nat, sleeps': seq<nat>)
    requires i < |urls| && Run(r, n, slept) == fetch(urls[i], req + requests)
    requires whole == After(requests, sleeps, FirstTextFrom(fetch, urls, i, req + requests))
    requires requests' == requests + n && sleeps' == sleeps + slept
    ensures r.Success? ==> whole == Run(Some(r.value), requests', sleeps')
    ensures r.Failure? ==> whole == After(requests', sleeps', FirstTextFrom(fetch, urls, i + 1, req + requests'))
  {
    if r.Failure? {
      var rest := FirstTextFrom(fetch, urls, i + 1, req + requests');
      assert sleeps + (slept + rest.sleeps) == sleeps' + rest.sleeps;
    }
  }

  /** The `for (const candidate of urlsToTry)` loop, for any way `fetch` of
      fetching one candidate: it stops at the first candidate that yields a text. */
  method FirstTextLoop(fetch: Fetcher, urls: seq<string>, req: nat)
    returns (text: Option<string>, requests: nat, ghost sleeps: seq<nat>)
    ensures Run(text, requests, sleeps) == FirstTextFrom(fetch, urls, 0, req)
  {
    text, requests, sleeps := None, 0, [];
    ghost var whole := FirstTextFrom(fetch, urls, 0, req);
    var i := 0;
    while i < |urls|
      invariant 0 <= i <= |urls| && text.None?
      invariant whole == After(requests, sleeps, FirstTextFrom(fetch, urls, i, req + requests))
    {
      var run := fetch(urls[i], req + requests);
      var requests' := requests + run.requests;
      ghost var sleeps' := sleeps + run.sleeps;
      MirrorStep(fetch, urls, i, req, requests, sleeps, run.result, run.requests, run.sleeps, whole, requests', sleeps');
      requests, sleeps := requests', sleeps';
      if run.result.Success? {
        text := Some(run.result.value);
        break;
      }
      i := i + 1;
    }
  }

  /** The mirror loop with `fetchTextWithRetry(candidate)`, three attempts each. */
  method FetchFirstText(net: Net, urls: seq<string>, req: nat)
    returns (text: Option<string>, requests: nat, ghost sleeps: seq<nat>)
    ensures Run(text, requests, sleeps) == FirstText(net, urls, req)
  {
    text, requests, sleeps := FirstTextLoop(Retrier(net), urls, req);
  }

  /** The mirror loop stops at the first candidate that yields a text, so a later
      candidate is requested only when every earlier one failed three times; when
      none yields a text, each candidate was tried exactly three times. */
  lemma {:induction false} FirstTextLaws(net: Net, urls: seq<string>, i: nat, req: nat)
    requires i <= |urls|
    ensures var run := FirstTextFrom(Retrier(net), urls, i, req);
      && run.requests <= 3 * (|urls| - i)
      && (run.result.None? ==> run.requests == 3 * (|urls| - i))
      && (i < |urls| && Retry(net, urls[i], 3, req).result.Success? ==>
            run == Run(Some(Retry(net, urls[i], 3, req).result.value),
                       Retry(net, urls[i], 3, req).requests, Retry(net, urls[i], 3, req).sleeps))
    decreases |urls| - i
  {
    if i < |urls| {
      var run := Retry(net, urls[i], 3, req);
      RetryLaws(net, urls[i], 3, req);
      if run.result.Failure? {
        FirstTextLaws(net, urls, i + 1, req + run.requests);
      }
    }
  }

  /** The text comes from one of the candidates: it is the body of an OK,
      marker-free response to one of them. */
  lemma {:induction false} FirstTextFromCandidate(net: Net, urls: seq<string>, i: nat, req: nat)
    requires i <= |urls|
    requires FirstTextFrom(Retrier(net), urls, i, req).result.Some?
    ensures exists k: nat, n: nat :: i <= k < |urls| &&
              Attempt(net(n, urls[k])) == Success(FirstTextFrom(Retrier(net), urls, i, req).result.value)
    decreases |urls| - i
  {
    var run := Retry(net, urls[i], 3, req);
    RetryLaws(net, urls[i], 3, req);
    if run.result.Success? {
      assert Attempt(net(req + run.requests - 1, urls[i])) == run.result;
    } else {
      FirstTextFromCandidate(net, urls, i + 1, req + run.requests);
    }
  }
}
