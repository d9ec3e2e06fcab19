/** When requests draw fresh nonces, no nonce is ever used twice under one key. */
module Nonces {
  import opened Basics
  import opened Crypto
  import opened System

  /** No two requests draw the same nonce, and none draws one that was used before. */
  ghost predicate FreshNonces(calls: seq<SealCall>, requests: seq<Request>) {
    && (forall i, j | 0 <= i < j < |requests| && NonceOf(requests[i]).Some? ::
          NonceOf(requests[i]) != NonceOf(requests[j]))
    && forall i, k | 0 <= i < |requests| && 0 <= k < |calls| :: NonceOf(requests[i]) != Some(calls[k].nonce)
  }

  ghost predicate DrawnBy(requests: seq<Request>, nonce: Nonce) {
    exists i :: 0 <= i < |requests| && NonceOf(requests[i]) == Some(nonce)
  }

  /** What was sealed since `calls` was sealed with nonces of the requests, and no nonce came twice. */
  ghost predicate SealedApart(calls: seq<SealCall>, calls': seq<SealCall>, requests: seq<Request>) {
    && calls <= calls' && DistinctNonces(calls')
    && forall k | |calls| <= k < |calls'| :: DrawnBy(requests, calls'[k].nonce)
  }

  lemma SealedOnceMore(calls: seq<SealCall>, sofar: seq<SealCall>, sofar': seq<SealCall>, requests: seq<Request>,
    n: nat)
    requires n < |requests| && FreshNonces(calls, requests) && SealedApart(calls, sofar, requests[..n])
    requires AtMostOneSeal(sofar, sofar', NonceOf(requests[n]))
    ensures SealedApart(calls, sofar', requests[..n + 1])
  {
    forall k | |calls| <= k < |sofar|
      ensures DrawnBy(requests[..n + 1], sofar[k].nonce) && Some(sofar[k].nonce) != NonceOf(requests[n])
    {
      assert DrawnBy(requests[..n], sofar[k].nonce);
      var i :| 0 <= i < n && NonceOf(requests[..n][i]) == Some(sofar[k].nonce);
      assert requests[..n][i] == requests[i] == requests[..n + 1][i];
    }
    if sofar' != sofar {
      assert requests[..n + 1][n] == requests[n];
      assert DrawnBy(requests[..n + 1], sofar'[|sofar|].nonce);
    }
  }

  /** Fresh nonces stay apart: the first n requests sealed with nonces of their own. */
  ghost predicate StaysApart(calls: seq<SealCall>, calls': seq<SealCall>, requests: seq<Request>, n: nat)
    requires n <= |requests|
  {
    FreshNonces(calls, requests) && DistinctNonces(calls) ==> SealedApart(calls, calls', requests[..n])
  }

  lemma OneMoreRequest(calls: seq<SealCall>, sofar: seq<SealCall>, sofar': seq<SealCall>, requests: seq<Request>,
    n: nat)
    requires n < |requests| && StaysApart(calls, sofar, requests, n)
      && AtMostOneSeal(sofar, sofar', NonceOf(requests[n]))
    ensures StaysApart(calls, sofar', requests, n + 1)
  {
    if FreshNonces(calls, requests) && DistinctNonces(calls) {
      SealedOnceMore(calls, sofar, sofar', requests, n);
    }
  }

  lemma NothingSealed(calls: seq<SealCall>, requests: seq<Request>)
    ensures StaysApart(calls, calls, requests, 0)
  {
  }

  lemma AllApart(calls: seq<SealCall>, calls': seq<SealCall>, requests: seq<Request>)
    requires StaysApart(calls, calls', requests, |requests|)
    ensures FreshNonces(calls, requests) && DistinctNonces(calls) ==> DistinctNonces(calls')
  {
  }
}
