/** The retrying GET of `get_product_from_goat`. The HTTP client is replaced by an
    abstract transport: a function from the attempt number to what that attempt
    yields. */
module Retrying {
  import opened Values

  /** What one GET yields: a response with its status code and decoded JSON body, or
      a timeout (the exception the loop catches). */
  datatype Attempt<B> = Response(status: int, body: B) | Timeout

  /** The only status whose body is returned. */
  const OK: int := 200

  /** The default `retries` every caller in the script uses. */
  const RETRIES: nat := 3

  /** What the fetch returns, together with the number of GETs it issued. */
  datatype Fetch<B> = Fetch(body: Option<B>, attempts: nat)

  /** Reference definition: the fetch from attempt `i` on, when attempts `0..i-1`
      all timed out. */
  function RetryFrom<B>(transport: nat -> Attempt<B>, retries: nat, i: nat): (f: Fetch<B>)
    requires i <= retries
    ensures i <= f.attempts <= retries
    decreases retries - i
  {
    if i == retries then Fetch(None, retries)
    else match transport(i)
      case Timeout => RetryFrom(transport, retries, i + 1)
      case Response(status, body) => Fetch(if status == OK then Some(body) else None, i + 1)
  }

  /** The fetch as a whole: it issues at most `retries` GETs. */
  function Retry<B>(transport: nat -> Attempt<B>, retries: nat): (f: Fetch<B>)
    ensures f.attempts <= retries
  {
    RetryFrom(transport, retries, 0)
  }

  /** The loop of `get_product_from_goat` with the client's timeout caught (the
      corrected handler; `RetryAsWritten` is the handler as written): one GET per attempt; a 200 response returns
      its body, any other status returns `None` at once, a timeout moves on to the next
      attempt, and running out of attempts returns `None`. */
  method FetchWithRetry<B>(transport: nat -> Attempt<B>, retries: nat)
    returns (body: Option<B>, attempts: nat)
    ensures Fetch(body, attempts) == Retry(transport, retries)
  {
    for attempt := 0 to retries
      invariant RetryFrom(transport, retries, attempt) == Retry(transport, retries)
    {
      match transport(attempt)
      case Response(status, b) =>
        if status == OK {
          return Some(b), attempt + 1;
        } else {
          return None, attempt + 1;
        }
      case Timeout =>
    }
    return None, retries;
  }

  /** The fetch as the handler is written. It names the timeout class of the lower-level
      HTTP library, while the client raises its own timeout class, so no timeout is
      caught: the first attempt that times out ends the fetch with that exception, and
      no later attempt is made. Any response ends the fetch as in `Retry`. */
  function RetryAsWritten<B>(transport: nat -> Attempt<B>, retries: nat): (r: Outcome<Fetch<B>>)
    ensures r.Raised? <==> 0 < retries && transport(0).Timeout?
    ensures r.Raised? ==> r.error == ClientTimeout
    ensures r.Value? ==> r.value == Retry(transport, retries)
  {
    if retries == 0 then Value(Fetch(None, 0))
    else match transport(0)
      case Timeout => Raised(ClientTimeout)
      case Response(status, body) => Value(Fetch(if status == OK then Some(body) else None, 1))
  }

  /** Every attempt before the last one issued timed out. */
  ghost predicate TimedOutBefore<B>(transport: nat -> Attempt<B>, i: nat, n: int) {
    forall j :: i <= j < n ==> transport(j).Timeout?
  }

  lemma {:induction false} RetryFromShape<B>(transport: nat -> Attempt<B>, retries: nat, i: nat)
    requires i <= retries
    ensures var f := RetryFrom(transport, retries, i);
      && TimedOutBefore(transport, i, f.attempts - 1)
      && (f.attempts < retries ==> i < f.attempts && transport(f.attempts - 1).Response?)
      && (f.body.Some? <==> i < f.attempts && transport(f.attempts - 1).Response?
                             && transport(f.attempts - 1).status == OK)
      && (f.body.Some? ==> f.body.value == transport(f.attempts - 1).body)
    decreases retries - i
  {
    if i < retries && transport(i).Timeout? {
      RetryFromShape(transport, retries, i + 1);
    }
  }

  /** What the retrying fetch promises: at most `retries` GETs; every GET but the last
      timed out; it stops early only on a response; and it returns a body exactly when
      the last GET was a 200 response, and then that response's body. */
  lemma RetryShape<B>(transport: nat -> Attempt<B>, retries: nat)
    ensures var f := Retry(transport, retries);
      && f.attempts <= retries
      && TimedOutBefore(transport, 0, f.attempts - 1)
      && (f.attempts < retries ==> 0 < f.attempts && transport(f.attempts - 1).Response?)
      && (f.body.Some? <==> 0 < f.attempts && transport(f.attempts - 1).Response?
                             && transport(f.attempts - 1).status == OK)
      && (f.body.Some? ==> f.body.value == transport(f.attempts - 1).body)
  {
    RetryFromShape(transport, retries, 0);
  }

  /** A non-200 status ends the fetch with `None` and no further attempts. */
  lemma {:induction false} RetryStopsOnRejection<B>(transport: nat -> Attempt<B>, retries: nat, k: nat)
    requires k < retries && TimedOutBefore(transport, 0, k)
    requires transport(k).Response? && transport(k).status != OK
    ensures Retry(transport, retries) == Fetch(None, k + 1)
  {
    RetryFromSkipsTimeouts(transport, retries, 0, k);
  }

  /** The first 200 response after timeouts only is what the fetch returns. */
  lemma {:induction false} RetryReturnsFirstOk<B>(transport: nat -> Attempt<B>, retries: nat, k: nat)
    requires k < retries && TimedOutBefore(transport, 0, k)
    requires transport(k).Response? && transport(k).status == OK
    ensures Retry(transport, retries) == Fetch(Some(transport(k).body), k + 1)
  {
    RetryFromSkipsTimeouts(transport, retries, 0, k);
  }

  /** When every allowed attempt times out, all of them are used and `None` comes back. */
  lemma {:induction false} RetryAllTimeouts<B>(transport: nat -> Attempt<B>, retries: nat)
    requires TimedOutBefore(transport, 0, retries)
    ensures Retry(transport, retries) == Fetch(None, retries)
  {
    RetryFromSkipsTimeouts(transport, retries, 0, retries);
  }

  /** Timeouts on attempts `i..k-1` only carry the fetch forward to attempt `k`. */
  lemma {:induction false} RetryFromSkipsTimeouts<B>(transport: nat -> Attempt<B>, retries: nat, i: nat, k: nat)
    requires i <= k <= retries && TimedOutBefore(transport, i, k)
    ensures RetryFrom(transport, retries, i) == RetryFrom(transport, retries, k)
    decreases k - i
  {
    if i < k {
      RetryFromSkipsTimeouts(transport, retries, i + 1, k);
    }
  }

  /** Where the code as written and the intended fetch part: a transport that times out
      on every attempt makes the intended fetch give up with `None` after all attempts,
      while the fetch as written raises on the first one. */
  lemma RetryAsWrittenRaisesOnTimeout<B>(transport: nat -> Attempt<B>, retries: nat)
    requires 0 < retries && TimedOutBefore(transport, 0, retries)
    ensures RetryAsWritten(transport, retries) == Raised(ClientTimeout)
    ensures Retry(transport, retries) == Fetch(None, retries)
  {
    assert transport(0).Timeout?;
    RetryAllTimeouts(transport, retries);
  }
}
