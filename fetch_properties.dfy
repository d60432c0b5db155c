/** Properties of the fetch-all loop, stated on its specification in
    module DiscordClient and therefore on every run of FetchAllMessages. */
module FetchProperties {
  import opened Wrappers
  import opened SearchUrl
  import opened DiscordClient

  /** The collection only grows at its end: what was collected after i
      requests is a prefix of what is collected after j >= i requests. */
  lemma {:induction false} CollectedGrowsByAppending<M, E>(ep: Endpoint<M, E>, i: nat, j: nat)
    requires i <= j
    ensures |Collected(ep, i)| <= |Collected(ep, j)|
    ensures Collected(ep, j)[..|Collected(ep, i)|] == Collected(ep, i)
    decreases j - i
  {
    if i < j {
      CollectedGrowsByAppending(ep, i, j - 1);
    }
  }

  /** Only one request can be the first to end the loop, so the number of
      requests FetchAllMessages makes is determined by the server. */
  lemma FirstStopUnique<M, E>(ep: Endpoint<M, E>, a: nat, b: nat)
    requires IsFirstStop(ep, a) && IsFirstStop(ep, b)
    ensures a == b
  {
  }

  /** Every request of one run goes to a different URL. */
  lemma RequestURLsDistinct<M, E>(ep: Endpoint<M, E>, n: nat, i: nat, k: nat)
    requires i < n && k < n && i != k
    ensures SearchURL(ep.serverID, ep.query, Offsets(n)[i]) != SearchURL(ep.serverID, ep.query, Offsets(n)[k])
  {
    if SearchURL(ep.serverID, ep.query, Offsets(n)[i]) == SearchURL(ep.serverID, ep.query, Offsets(n)[k]) {
      SearchURLInjective(ep.serverID, ep.query, Offsets(n)[i], Offsets(n)[k]);
    }
  }

  /** A first page whose messages already reach its reported total (a total
      of 0 in particular) ends the loop after exactly one request, with those
      messages and no error. */
  lemma FirstPageSuffices<M, E>(ep: Endpoint<M, E>)
    requires PageAt(ep, 0).Page? && |PageAt(ep, 0).messages| >= PageAt(ep, 0).totalResults
    ensures Terminates(ep) && IsFirstStop(ep, 0)
    ensures Expected(ep, 1) == FetchResult(PageAt(ep, 0).messages, None)
  {
    assert Collected(ep, 1) == PageAt(ep, 0).messages;
    assert Stops(ep, 0);
  }

  /** A request that fails after earlier pages ends the loop; the result is
      the messages of those earlier pages and the error, and no later page
      is requested. */
  lemma FailureEndsRun<M, E>(ep: Endpoint<M, E>, k: nat)
    requires forall i :: 0 <= i < k ==> !Stops(ep, i)
    requires PageAt(ep, k).Failure?
    ensures Terminates(ep) && IsFirstStop(ep, k)
    ensures Expected(ep, k + 1) == FetchResult(Collected(ep, k), Some(PageAt(ep, k).error))
  {
    assert Stops(ep, k);
  }

  /** The scenario of a failing second page: the 25 messages of the first
      page are returned together with the error. */
  lemma FailureOnSecondPage<M, E>(ep: Endpoint<M, E>)
    requires PageAt(ep, 0).Page? && |PageAt(ep, 0).messages| == 25 < PageAt(ep, 0).totalResults
    requires PageAt(ep, 1).Failure?
    ensures Terminates(ep) && IsFirstStop(ep, 1)
    ensures Expected(ep, 2) == FetchResult(PageAt(ep, 0).messages, Some(PageAt(ep, 1).error))
  {
    assert Collected(ep, 1) == PageAt(ep, 0).messages;
    assert !Stops(ep, 0);
    FailureEndsRun(ep, 1);
  }

  // -----------------------------------------------------------------------
  // A stable total T with full pages of 25 until T is reached.

  function Min(a: int, b: int): int {
    if a <= b then a else b
  }

  /** Every request below the total answers the same total T, with a full
      page of 25 messages, or the T - offset messages left on the last page. */
  ghost predicate StableFullPages<M, E>(ep: Endpoint<M, E>, total: int) {
    forall k: nat :: Offset(k) < total ==>
      PageAt(ep, k).Page? && PageAt(ep, k).totalResults == total &&
      |PageAt(ep, k).messages| == Min(FetchSize, total - Offset(k))
  }

  /** ⌈total / 25⌉, the number of requests a stable total needs. */
  function RequestCount(total: int): (n: nat)
    requires 1 <= total
    ensures 1 <= n
    ensures (n - 1) * FetchSize < total <= n * FetchSize
  {
    (total + FetchSize - 1) / FetchSize
  }

  lemma {:induction false} StableCollectedLength<M, E>(ep: Endpoint<M, E>, total: int, j: nat)
    requires 1 <= total && StableFullPages(ep, total)
    requires j <= RequestCount(total)
    ensures |Collected(ep, j)| == Min(Offset(j), total)
  {
    if 0 < j {
      StableCollectedLength(ep, total, j - 1);
      assert Offset(j - 1) < total;
    }
  }

  /** Under a stable total, the k-th request ends the loop exactly when it
      is the last of the ⌈T/25⌉, and the count printed after it is the
      number of requests still to come. */
  lemma StablePage<M, E>(ep: Endpoint<M, E>, total: int, k: nat)
    requires 1 <= total && StableFullPages(ep, total)
    requires k < RequestCount(total)
    ensures Stops(ep, k) <==> k == RequestCount(total) - 1
    ensures RemainingFetches(total, |Collected(ep, k + 1)|) == RequestCount(total) - (k + 1)
  {
    assert Offset(k) < total;
    StableCollectedLength(ep, total, k + 1);
  }

  /** Under a stable total T >= 1 with full pages, the loop makes exactly
      ⌈T/25⌉ requests, at offsets 0, 25, ..., and returns T messages and no
      error; the count printed after the j-th page is the number of
      requests still to come. */
  lemma StableTotalRun<M, E>(ep: Endpoint<M, E>, total: int)
    requires 1 <= total && StableFullPages(ep, total)
    ensures Terminates(ep) && IsFirstStop(ep, RequestCount(total) - 1)
    ensures forall k :: IsFirstStop(ep, k) ==> k == RequestCount(total) - 1
    ensures Expected(ep, RequestCount(total)) == FetchResult(Collected(ep, RequestCount(total)), None)
    ensures |Collected(ep, RequestCount(total))| == total
    ensures forall j :: 1 <= j <= RequestCount(total) ==>
      RemainingFetches(total, |Collected(ep, j)|) == RequestCount(total) - j
  {
    var n := RequestCount(total);
    forall k | 0 <= k < n
      ensures !Stops(ep, k) <==> k < n - 1
    {
      StablePage(ep, total, k);
    }
    assert Stops(ep, n - 1);
    forall k | IsFirstStop(ep, k)
      ensures k == n - 1
    {
      FirstStopUnique(ep, k, n - 1);
    }
    assert Offset(n - 1) < total;
    StableCollectedLength(ep, total, n);
    forall j | 1 <= j <= n
      ensures RemainingFetches(total, |Collected(ep, j)|) == n - j
    {
      StablePage(ep, total, j - 1);
    }
  }

  /** The scenario of 60 results: requests at offsets 0, 25 and 50, after
      which 25, 50 and 60 messages are collected, and the third request ends
      the loop. */
  lemma SixtyResults<M, E>(ep: Endpoint<M, E>)
    requires StableFullPages(ep, 60)
    ensures Terminates(ep) && IsFirstStop(ep, 2)
    ensures Offsets(3) == [0, 25, 50]
    ensures |Collected(ep, 1)| == 25 && |Collected(ep, 2)| == 50 && |Collected(ep, 3)| == 60
    ensures Expected(ep, 3) == FetchResult(Collected(ep, 3), None)
  {
    assert RequestCount(60) == 3;
    StableTotalRun(ep, 60);
    StableCollectedLength(ep, 60, 1);
    StableCollectedLength(ep, 60, 2);
  }
}
