/** The search client and the fetch-all loop of utils/discord_client.go.
    The HTTP round trip is an abstract `server` that maps a request URL to a
    decoded response or an error. */
module DiscordClient {
  import opened Wrappers
  import opened GoInt
  import opened SearchUrl

  /** The page size the loop assumes; never read from a response. */
  const FetchSize := 25

  /** One decoded search response, or the error `GetMessages` returned. */
  datatype Response<M, E> =
    | Page(totalResults: int, messages: seq<M>)
    | Failure(error: E)

  /** Everything one search needs: the remote side, the guild and the query.
      Identity headers and the token only shape what `server` answers. */
  datatype Endpoint<M, E> = Endpoint(server: string -> Response<M, E>, serverID: string, query: string)

  /** What `FetchAllMessages` returns: the messages and a possible error. */
  datatype FetchResult<M, E> = FetchResult(messages: seq<M>, error: Option<E>)

  /** One search request: the response the server gives for the URL at this offset. */
  function GetMessages<M, E>(ep: Endpoint<M, E>, offset: int): Response<M, E> {
    ep.server(SearchURL(ep.serverID, ep.query, offset))
  }

  function MessagesOf<M, E>(r: Response<M, E>): seq<M> {
    if r.Page? then r.messages else []
  }

  // ---------------------------------------------------------------------
  // Specification of the loop, indexed by the request number k (0-based).

  /** The offset of the k-th request. */
  function Offset(k: nat): nat {
    FetchSize * k
  }

  /** The offsets of the first n requests, in order. */
  function Offsets(n: nat): (r: seq<int>)
    ensures |r| == n
    ensures forall k :: 0 <= k < n ==> r[k] == FetchSize * k
  {
    if n == 0 then [] else Offsets(n - 1) + [Offset(n - 1)]
  }

  /** The response to the k-th request. */
  function PageAt<M, E>(ep: Endpoint<M, E>, k: nat): Response<M, E> {
    GetMessages(ep, Offset(k))
  }

  /** The messages of the first j responses, concatenated in request order. */
  function Collected<M, E>(ep: Endpoint<M, E>, j: nat): seq<M> {
    if j == 0 then [] else Collected(ep, j - 1) + MessagesOf(PageAt(ep, j - 1))
  }

  /** The k-th request ends the loop: it fails, or the collection then
      reaches the total that this response reports. */
  predicate Stops<M, E>(ep: Endpoint<M, E>, k: nat) {
    match PageAt(ep, k)
    case Failure(_) => true
    case Page(total, _) => |Collected(ep, k + 1)| >= total
  }

  /** The k-th request is the first to end the loop. */
  ghost predicate IsFirstStop<M, E>(ep: Endpoint<M, E>, k: nat) {
    Stops(ep, k) && forall i :: 0 <= i < k ==> !Stops(ep, i)
  }

  /** Some request ends the loop; without this the loop never returns. */
  ghost predicate Terminates<M, E>(ep: Endpoint<M, E>) {
    exists k: nat :: Stops(ep, k)
  }

  /** What the loop returns when its n-th request (n >= 1) is the last one:
      on a failure the messages collected before it and the error, otherwise
      everything collected and no error. */
  function Expected<M, E>(ep: Endpoint<M, E>, n: nat): FetchResult<M, E>
    requires 1 <= n
  {
    match PageAt(ep, n - 1)
    case Failure(e) => FetchResult(Collected(ep, n - 1), Some(e))
    case Page(_, _) => FetchResult(Collected(ep, n), None)
  }

  // ---------------------------------------------------------------------
  // The implementation.

  /** The count printed after each page: Go's truncating
      `(totalResults - collected + 24) / 25`. It is the number of pages still
      to come while the collection is short of the total, and it is at most
      zero exactly when the loop is about to stop. */
  function RemainingFetches(totalResults: int, collected: int): (r: int)
    ensures collected <= totalResults ==>
      (r - 1) * FetchSize < totalResults - collected <= r * FetchSize
    ensures r <= 0 <==> collected >= totalResults
  {
    TruncDiv(totalResults - collected + FetchSize - 1, FetchSize)
  }

  /** Requests pages at offsets 0, 25, 50, ... appending each page's messages,
      until a page reports a total the collection has reached, or a request
      fails. `requests` records the offsets requested. */
  method FetchAllMessages<M, E>(ep: Endpoint<M, E>)
    returns (allMessages: seq<M>, err: Option<E>, ghost requests: seq<int>)
    requires Terminates(ep)
    ensures 1 <= |requests| && requests == Offsets(|requests|)
    ensures IsFirstStop(ep, |requests| - 1)
    ensures FetchResult(allMessages, err) == Expected(ep, |requests|)
    ensures exists k: nat :: IsFirstStop(ep, k) && FetchResult(allMessages, err) == Expected(ep, k + 1)
  {
    allMessages := [];
    err := None;
    requests := [];
    var offset := 0;
    ghost var last: nat :| Stops(ep, last);
    ghost var j: nat := 0;
    while true
      invariant j <= last
      invariant offset == Offset(j)
      invariant requests == Offsets(j)
      invariant allMessages == Collected(ep, j)
      invariant err == None
      invariant forall i :: 0 <= i < j ==> !Stops(ep, i)
      decreases last - j
    {
      var messages := GetMessages(ep, offset);
      requests := requests + [offset];
      if messages.Failure? {
        err := Some(messages.error);
        assert IsFirstStop(ep, j) && FetchResult(allMessages, err) == Expected(ep, j + 1);
        return;
      }

      allMessages := allMessages + messages.messages;

      // Only logged by the source.
      var remainingFetches := RemainingFetches(messages.totalResults, |allMessages|);

      if |allMessages| >= messages.totalResults {
        assert IsFirstStop(ep, j) && FetchResult(allMessages, err) == Expected(ep, j + 1);
        break;
      }

      offset := offset + 25;
      j := j + 1;
    }
  }
}
