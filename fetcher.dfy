/** `LlssCrawler._fetch_html`: a GET with at most `retry` attempts and exponential backoff.
    The network is a script: `script[k - 1]` is what attempt `k` would get (a body, or any
    failure — timeout, transport error, non-2xx status); attempts past the end of the script
    fail. A sleep is recorded as its multiple of `retry_delay`. */
module Fetcher {
  import opened Wrappers

  datatype Attempt<B> = Failed | Succeeded(body: B)

  /** What attempt `k` (counting from 1) receives. */
  function OutcomeOf<B>(script: seq<Attempt<B>>, k: nat): Attempt<B> {
    if 1 <= k <= |script| then script[k - 1] else Failed
  }

  /** Number of iterations of `for attempt in range(1, retry + 1)`. */
  function Budget(retry: int): nat {
    if retry > 0 then retry else 0
  }

  function Pow2(k: nat): (r: nat)
    ensures r >= 1
  {
    if k == 0 then 1 else 2 * Pow2(k - 1)
  }

  /** The first `n` backoff sleeps, as multiples of `retry_delay`. */
  function Backoff(n: nat): (s: seq<nat>)
    ensures |s| == n
  {
    if n == 0 then [] else Backoff(n - 1) + [Pow2(n - 1)]
  }

  /** The `k`-th backoff sleep (from 0) is `2^k` times `retry_delay`. */
  lemma {:induction false} BackoffDoubles(n: nat)
    ensures forall k :: 0 <= k < n ==> Backoff(n)[k] == Pow2(k)
  {
    if n > 0 {
      BackoffDoubles(n - 1);
    }
  }

  function Total(s: seq<nat>): nat {
    if s == [] then 0 else Total(s[..|s| - 1]) + s[|s| - 1]
  }

  /** The earliest of attempts `1..n` that succeeds. */
  function FirstSuccess<B>(script: seq<Attempt<B>>, n: nat): (r: Option<nat>)
    ensures r.None? <==> forall k :: 1 <= k <= n ==> OutcomeOf(script, k).Failed?
    ensures r.Some? ==> 1 <= r.value <= n && OutcomeOf(script, r.value).Succeeded?
    ensures r.Some? ==> forall k :: 1 <= k < r.value ==> OutcomeOf(script, k).Failed?
  {
    if n == 0 then None
    else if FirstSuccess(script, n - 1).Some? then FirstSuccess(script, n - 1)
    else if OutcomeOf(script, n).Succeeded? then Some(n)
    else None
  }

  /** What one call observes: the returned body, the number of requests made, and the
      delays slept, in order. */
  datatype Fetch<B> = Fetch(body: Option<B>, requests: nat, sleeps: seq<nat>)

  /** Reference behaviour: the call stops at the first success, or after the last allowed
      attempt; it sleeps after every failed attempt except the last allowed one. */
  function FetchSpec<B>(retry: int, script: seq<Attempt<B>>): Fetch<B> {
    match FirstSuccess(script, Budget(retry))
    case Some(k) => Fetch(Some(OutcomeOf(script, k).body), k, Backoff(k - 1))
    case None =>
      var n := Budget(retry);
      Fetch(None, n, Backoff(if n == 0 then 0 else n - 1))
  }

  /** `_fetch_html(session, url)`. */
  method FetchHtml<B>(retry: int, script: seq<Attempt<B>>)
    returns (body: Option<B>, requests: nat, sleeps: seq<nat>)
    ensures Fetch(body, requests, sleeps) == FetchSpec(retry, script)
    ensures requests <= Budget(retry)
    ensures body.Some? ==> requests >= 1 && OutcomeOf(script, requests) == Succeeded(body.value)
    ensures body.None? ==> requests == Budget(retry)
    ensures forall k :: 1 <= k <= requests && (body.Some? ==> k < requests) ==> OutcomeOf(script, k).Failed?
    ensures |sleeps| == (if requests == 0 then 0 else requests - 1)
    ensures forall k :: 0 <= k < |sleeps| ==> sleeps[k] == Pow2(k)
  {
    var delay: nat := 1;
    body, requests, sleeps := None, 0, [];
    var attempt := 1;
    while attempt <= retry
      invariant 1 <= attempt <= Budget(retry) + 1
      invariant requests == attempt - 1
      invariant FirstSuccess(script, requests).None?
      invariant sleeps == Backoff(if attempt <= retry || requests == 0 then requests else requests - 1)
      invariant delay == Pow2(|sleeps|)
    {
      requests := attempt;
      var outcome := OutcomeOf(script, attempt);
      if outcome.Succeeded? {
        body := Some(outcome.body);
        BackoffDoubles(|sleeps|);
        return;
      }
      if attempt < retry {
        sleeps := sleeps + [delay];
        delay := delay * 2;
      }
      attempt := attempt + 1;
    }
    BackoffDoubles(|sleeps|);
  }

  lemma TotalAppend(s: seq<nat>, x: nat)
    ensures Total(s + [x]) == Total(s) + x
  {
    assert (s + [x])[..|s|] == s;
  }

  /** The total delay slept before the `(n + 1)`-th attempt is `(2^n - 1) * retry_delay`. */
  lemma {:induction false} BackoffTotal(n: nat)
    ensures Total(Backoff(n)) == Pow2(n) - 1
  {
    if n > 0 {
      var prev, last := Backoff(n - 1), Pow2(n - 1);
      assert Backoff(n) == prev + [last];
      TotalAppend(prev, last);
      BackoffTotal(n - 1);
      assert Pow2(n) == last + last;
    }
  }

  /** Attempt `k` is the first to succeed, and it receives `b`. */
  predicate FirstSucceedsWith<B(==)>(script: seq<Attempt<B>>, k: nat, b: B) {
    OutcomeOf(script, k) == Succeeded(b) && forall k' :: 1 <= k' < k ==> OutcomeOf(script, k').Failed?
  }

  /** The fetch makes at most `retry` requests and returns the body of the first successful
      one; it returns `None` exactly when every allowed attempt fails. */
  lemma FetchSpecCorrect<B>(retry: int, script: seq<Attempt<B>>)
    ensures FetchSpec(retry, script).requests <= Budget(retry)
    ensures FetchSpec(retry, script).body.None? <==>
      forall k :: 1 <= k <= Budget(retry) ==> OutcomeOf(script, k).Failed?
    ensures forall b :: FetchSpec(retry, script).body == Some(b) <==>
      exists k :: 1 <= k <= Budget(retry) && FirstSucceedsWith(script, k, b)
  {
    var f := FetchSpec(retry, script);
    if f.body.Some? {
      var k := FirstSuccess(script, Budget(retry)).value;
      assert FirstSucceedsWith(script, k, f.body.value);
    }
    forall b | exists k :: 1 <= k <= Budget(retry) && FirstSucceedsWith(script, k, b)
      ensures f.body == Some(b)
    {
      var k :| 1 <= k <= Budget(retry) && FirstSucceedsWith(script, k, b);
      var first := FirstSuccess(script, Budget(retry));
      assert first.Some?;
      assert first.value == k;
    }
  }

  /** Two failures then a success, with three attempts allowed: the body of the third attempt
      is returned after sleeping `retry_delay` and then `2 * retry_delay`. */
  lemma ThirdAttemptSucceeds<B>(b: B)
    ensures var f := FetchSpec(3, [Failed, Failed, Succeeded(b)]);
      f.body == Some(b) && f.requests == 3 && f.sleeps == [1, 2] && Total(f.sleeps) == 3
  {
    var script := [Failed, Failed, Succeeded(b)];
    assert FirstSuccess(script, 3) == Some(3);
    BackoffTotal(2);
  }
}
