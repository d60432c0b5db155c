# DiscordScraper: the message fetch loop, in Dafny

DiscordScraper logs into Discord's web API. It then pages through a guild's
full-text message search and collects every matching message. This project
models the part of `utils/discord_client.go` that has logic of its own:

- **`FetchAllMessages`** is the pagination loop. It starts at offset 0 with
  an empty collection. It requests one search page, appends that page's
  messages, and stops once the collection has reached the `total_results`
  that this page reports. Otherwise it advances the offset by a fixed 25 and
  requests again. The first failed request ends the loop. It then returns
  the messages collected so far together with that error.
- **The search URL** that `GetMessages` builds is
  `https://discord.com/api/v9/guilds/{serverID}/messages/search?content={query}`.
  It gets `&offset={n}` appended only when the offset is not 0. The server
  ID and the query are spliced in without escaping.

The network is abstract. An `Endpoint` holds a `server` function, from the
request URL to a decoded `Page(totalResults, messages)` or a `Failure(error)`,
plus the guild ID and the query. `GetMessages(ep, offset)` asks the server for
`SearchURL(serverID, query, offset)`. Message records and errors are type
parameters, so they stay opaque.

The loop is an imperative method, `DiscordClient.FetchAllMessages`. It is
proved against a declarative specification indexed by the request number k:

- `PageAt(ep, k)` is the response to the request at offset `25 * k`.
- `Collected(ep, j)` is the messages of the first j responses, in order.
- `Stops(ep, k)` says the k-th request fails, or its page's total has been reached.
- `IsFirstStop(ep, k)` says request k is the first one that stops.
- `Expected(ep, n)` is what a run of n requests returns.

The method's postcondition says four things:
- the requests went to offsets `0, 25, …`;
- the last request is the first one that stops;
- every earlier request did not stop;
- the result is `Expected`.

The Go loop has no iteration bound. It returns only if some request stops
the loop, so the method requires `Terminates(ep)`, which says exactly that.
The lemmas in `FetchProperties` then derive the documented behaviour: the
scenarios with a stable total, a zero total and a failing page.

Files:
- `wrappers.dfy`: `Option`.
- `decimal.dfy`: Go's `%d` rendering and its inverse parser.
- `go_int.dfy`: Go's truncating division.
- `search_url.dfy`: the search URL.
- `discord_client.dfy`: responses, `GetMessages`, the loop specification, `RemainingFetches` and `FetchAllMessages`.
- `fetch_properties.dfy`: lemmas about runs of the loop.

## Model

| member | source | states |
|---|---|---|
| `Decimal.NatToDecimal` | utils/discord_client.go:177 | the `%d` rendering of a natural is a non-empty string of digits, with a leading `0` only for the number 0 |
| `Decimal.IntToDecimal` | utils/discord_client.go:177 | the `%d` rendering of an int starts with `-` exactly when the int is negative; a non-negative int is all digits |
| `Decimal.ParseNatToDecimal` | utils/discord_client.go:177 | reading the digits `%d` wrote for a natural gives the natural back |
| `Decimal.ParseIntToDecimal` | utils/discord_client.go:177 | parsing the `%d` rendering of any int gives that int back |
| `Decimal.IntToDecimalInjective` | utils/discord_client.go:177 | different offsets are rendered as different decimal strings |
| `SearchUrl.SearchURL` | utils/discord_client.go:175-181 | every search URL starts with the host, guild and query prefix; it has a suffix after that prefix if and only if the offset is non-zero |
| `SearchUrl.OffsetOfSearchURL` | utils/discord_client.go:175-181 | the offset can be read back from the URL: the suffix is exactly `&offset=` and the decimal offset when offset ≠ 0, and there is no suffix when offset = 0 |
| `SearchUrl.SearchURLInjective` | utils/discord_client.go:175-181 | for a fixed guild and query, different offsets give different URLs |
| `SearchUrl.UnescapedQueryCollides` | utils/discord_client.go:177-180 | the query is spliced in unescaped, so query `fries&offset=25` at offset 0 requests the same URL as query `fries` at offset 25 |
| `GoInt.TruncDiv` | utils/discord_client.go:227 | Go's `/` truncates toward zero: for a dividend a ≥ 0 the quotient q satisfies q·b ≤ a < q·b + b, and for a < 0 it satisfies q·b − b < a ≤ q·b with q ≤ 0 |
| `DiscordClient.Offsets` | utils/discord_client.go:215-234 | the k-th request (0-based) uses offset 25·k, whatever the earlier pages held |
| `DiscordClient.RemainingFetches` | utils/discord_client.go:227 | the printed count is ⌈(total − collected)/25⌉ whenever total − collected ≥ 0, and it is ≤ 0 exactly when the loop is about to stop |
| `DiscordClient.FetchAllMessages` | utils/discord_client.go:213-239 | requests go to offsets 0, 25, …; the last request is the first that fails or whose page total the collection reaches, and no earlier request does either; on failure the result is the messages of the earlier pages and the error; otherwise it is all pages' messages, in order, and no error. The returned messages and error alone already equal the expected result for the unique first stopping request |
| `FetchProperties.CollectedGrowsByAppending` | utils/discord_client.go:225 | the collection never shrinks or reorders: after i requests it is a prefix of the collection after any j ≥ i requests |
| `FetchProperties.FirstStopUnique` | utils/discord_client.go:219-232 | the request that ends the loop is unique, so the number of requests a run makes is determined by the server's answers |
| `FetchProperties.RequestURLsDistinct` | utils/discord_client.go:176-177 | no two requests of one run go to the same URL |
| `FetchProperties.FirstPageSuffices` | utils/discord_client.go:219-238 | a first page whose messages already reach its total (a total of 0 in particular) ends the loop after one request, returning that page's messages and no error |
| `FetchProperties.FailureEndsRun` | utils/discord_client.go:220-223 | a failing request after non-stopping pages is the last request; the result is the messages collected before it and its error |
| `FetchProperties.FailureOnSecondPage` | utils/discord_client.go:220-225 | a full first page of 25 below the total followed by a failing second page returns those 25 messages and the error after two requests |
| `FetchProperties.StableCollectedLength` | utils/discord_client.go:225-234 | with a stable total T and full pages, the collection after j ≤ ⌈T/25⌉ requests holds min(25·j, T) messages |
| `FetchProperties.StablePage` | utils/discord_client.go:227-232 | with a stable total T and full pages, request k stops the loop exactly when k = ⌈T/25⌉ − 1, and the count printed after it is the number of requests still to come |
| `FetchProperties.StableTotalRun` | utils/discord_client.go:219-236 | with a stable total T ≥ 1 and full pages, the loop terminates after exactly ⌈T/25⌉ requests, returning T messages and no error |
| `FetchProperties.SixtyResults` | utils/discord_client.go:219-236 | total 60: requests at offsets 0, 25 and 50; 25, 50 and 60 messages collected after each; the third request ends the loop |

## Left out

- `GetCookies` and `GetToken` (utils/discord_client.go:51-154) are not modelled. Each is one HTTP exchange through `net/http`, with JSON and base64 done by library calls and no branching of its own.
- The HTTP exchange and JSON decoding inside `GetMessages` (utils/discord_client.go:158-173, 182-209) become the abstract `server` function. Every error path of `GetMessages` is one `Failure` response: cookie jar, marshalling, request construction, transport, body read and decode. The identity headers and the token only shape what `server` answers.
- A non-200 response that decodes to a zero total and no messages is just a `Page(0, [])` from `server`. The loop treats it as "done", as the source does.
- `time.Sleep(delay)` (utils/discord_client.go:235) and the `fmt.Printf` of the remaining count (utils/discord_client.go:228) are not modelled. They affect only timing and output. The count itself is computed, and `RemainingFetches` states what it means.
- DiscordClient.FetchAllMessages: requires `Terminates(ep)`, that some request ends the loop. On a server for which none does, the source loops forever. Dafny can express that only with `decreases *`, which is not used here.
- DiscordClient.FetchAllMessages: the ghost `requests` out-parameter records the offsets requested. The source does not return it; it stands for the sequence of HTTP requests.
- GoInt.TruncDiv: requires a positive divisor. Go panics on zero, and the source only divides by the constant 25.
- Go's 64-bit `int` is modelled as unbounded. The offset would overflow only after about 3.7·10^17 requests.
- `SaveToFile` in utils/file_handler.go is not part of this model. It is a library unmarshal/marshal round trip followed by a file write.
- main.go is not part of this model. It is wiring: a configuration literal, calls to the functions above, and `log.Fatal` on any error.
