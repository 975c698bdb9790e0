# Crawl scheduler of `crawl.js`

`crawl.js` is a single-site web crawler. It is started with one URL (the seed) and crawls breadth-first. The queue starts with the seed. Each call of `crawl()` does the following:

- It takes the head of the queue.
- It drops the URL if it is already visited.
- It works out an alternate base URL by toggling `www.`.
- It marks the URL visited, and drops it if it contains neither the base URL nor the alternate.
- Otherwise it fetches the URL (after a delay) and counts it as processed.
- On success it writes one CSV row (URL, response, title, description). It then appends to the queue every anchor whose href is non-empty, whose resolved protocol is `http:` or `https:`, and whose full URL is not yet visited, counting each one.
- When the queue is empty, the CSV writer is closed.

This project models that scheduler and proves its rules:

- first-in first-out order;
- no URL fetched twice;
- one row per successful fetch, written in fetch order;
- the www toggle and the substring scope test;
- link resolution and admission;
- how the counters move;
- termination on a finite site;
- the start-up check on the seed.

Modules:

- `Text` (`text.dfy`) defines the JavaScript string operations the rules are built from. `includes` is a substring test. `indexOf` finds the first occurrence. `replace` with a string pattern replaces only the first occurrence.
- `Urls` (`urls.dfy`) defines the parsed seed and parsed hrefs, `baseUrl`, the alternate base URL, the scope test, link resolution, the admission test and the seed check. The URL parser is a foreign library. Its results are taken as given: the `protocol` and `hostname` of a `Seed`, and the `parsed` part of an `Anchor`.
- `Schedule` (`schedule.dfy`) is the scheduler as a state-transition function.
  - `Next` is one call of `crawl()` on a `Crawl` state (queue, visited, rows, the two counters, closed).
  - `Iterate` is a run of `n` calls.
  - `FetchLog`, `PopLog` and `PushLog` record what a run fetched, dequeued and enqueued.
  - The network fetch and the HTML parse are an oracle `fetch`. It maps a URL to `Error` or to `Ok(status, title, description, anchors)`.
- `CrawlProgram` (`crawler.dfy`) is the crawler as the program runs it.
  - A `Crawler` object holds the queue, visited list, rows and counters and updates them in place.
  - `Step` is one call of `crawl()`, with its anchor loop in `EnqueueLinks`. It is proved to change the state exactly as `Next` does.
  - `Run` calls `Step` until the writer is closed.
  - `Start` is the start-up check.
  - `CrawlSite` is the whole program.
- `CrawlExamples` (`examples_crawl.dfy`) works through concrete cases on `http://example.com`: scope, a relative href, an invalid seed, and breadth-first order with and without a failing fetch.

## Model

| member | source | states |
|---|---|---|
| Text.Includes | crawl.js:61-67 | `String.prototype.includes`: whether the pattern occurs in the string (its meaning is stated by `Text.IncludesMeansOccurs`) |
| Text.ReplaceFirst | crawl.js:62-64 | `String.prototype.replace` with a string pattern: the first occurrence is replaced (stated by `Text.ReplaceFirstAt` and `Text.ReplaceFirstLength`) |
| Text.IndexOfFindsFirst | crawl.js:61-64 | `indexOf` is -1 exactly when the pattern occurs nowhere; otherwise it is an occurrence and no earlier index is one |
| Text.IncludesMeansOccurs | crawl.js:67 | `includes` holds exactly when the pattern occurs at some index |
| Text.ReplaceFirstLength | crawl.js:62-64 | `replace` with a string pattern changes nothing when the pattern is absent, and otherwise swaps the pattern's length for the replacement's |
| Text.ReplaceFirstAt | crawl.js:62-64 | `replace` rewrites only the first occurrence: the text before it and after it is kept |
| Urls.ValidSeed | crawl.js:22 | the start-up check: the URL is non-empty, has a protocol and a hostname, and the protocol is `http:` or `https:` |
| Urls.BaseUrl | crawl.js:9 | the seed's protocol, `//` and hostname |
| Urls.AltBaseUrl | crawl.js:59-65 | the base URL with its first `www.` removed if it has one, else with `www.` inserted after its first `://` (stated by `Urls.AltBaseUrlToggles`) |
| Urls.InScope | crawl.js:67 | a URL is crawled when it contains the base URL or the alternate as a substring |
| Urls.Resolve | crawl.js:99-102 | an href without a protocol takes the seed's protocol and hostname; one with a protocol is kept |
| Urls.LinkUrl | crawl.js:97-104 | the full URL of an anchor: its resolved parse, serialised |
| Urls.Admits | crawl.js:96-105 | an anchor is queued when its href is non-empty, its resolved protocol is http or https, and its full URL is not visited |
| Urls.AltOfPlainBase | crawl.js:63-64 | a web base URL without `www.` gets `www.` inserted right after its `://` |
| Urls.AltOfWwwBase | crawl.js:61-62 | a base URL `protocol//www.host` loses that first `www.` |
| Urls.AltBaseUrlToggles | crawl.js:59-65 | for a host without `www.`, the alternate of `protocol//host` is `protocol//www.host` and the alternate of that is `protocol//host` |
| Urls.SeedAltRoundTrip | crawl.js:59-65 | for a valid seed whose host has no `www.`, or one leading `www.` only, toggling twice gives the base URL back |
| Urls.WwwEquivalence | crawl.js:59-67 | for a seed whose host has no `www.`, any URL that starts with the base URL, with or without `www.` before the host, is in scope |
| Urls.WwwEquivalenceOfWwwSeed | crawl.js:59-67 | for a seed whose host is `www.` followed by a host, any URL that starts with the base URL, with or without that `www.`, is in scope |
| Urls.ScopeIsSubstringOnly | crawl.js:67 | any URL that contains the base URL anywhere is in scope, whatever its own host |
| Urls.RelativeLinkStaysOnSeed | crawl.js:96-104 | an href without a protocol resolves to the seed's base URL plus its path; for a valid seed it is followable exactly when the href is non-empty, and it is always in scope |
| Urls.AbsoluteLinkUnchanged | crawl.js:97-105 | an href with a protocol keeps the parser's reading, and is followable exactly when it is non-empty and its protocol is http or https |
| Schedule.Init | crawl.js:11-33 | the starting state: the seed URL queued, one link counted, nothing visited, processed or written (its invariant is `Schedule.InitSatisfiesInv`) |
| Schedule.Next | crawl.js:46-115 | one call of `crawl()`, branch by branch: close on an empty queue, drop a visited head, mark and drop an out-of-scope head, otherwise mark, fetch, count, and on success write a row and queue the admitted links (stated by the single-call lemmas below) |
| Schedule.Admitted | crawl.js:94-110 | the links a page adds are, in document order, exactly the full URLs of its anchors that pass the admission test against `visited`, and there are no more of them than anchors |
| Schedule.InitSatisfiesInv | crawl.js:11-33 | the starting state, with the seed queued and one link counted, satisfies the scheduler invariant |
| Schedule.NextPreservesInv | crawl.js:46-115 | each call keeps the invariant: visited has no duplicates, processed plus queued never exceeds total, every row is for a distinct visited in-scope URL, and a closed writer means an empty queue |
| Schedule.EmptyQueueEndsCrawl | crawl.js:47-51 | on an empty queue the call closes the writer and changes nothing else, and further calls change nothing |
| Schedule.StepIsFifo | crawl.js:53-106 | a call on a non-empty queue removes exactly its head and appends the admitted links at the tail |
| Schedule.StepOnlyAppends | crawl.js:68-92 | a call only appends to `visited` and to the rows; the URL it fetches, if any, was not visited before and is appended to `visited` |
| Schedule.StepCounts | crawl.js:78-107 | `processedLinks` grows by the number of fetches in the call, `totalLinks` by the number of links queued |
| Schedule.VisitedHeadDropped | crawl.js:54-57 | an already visited head is dropped with no fetch, no row, no queued link and no other change |
| Schedule.OutOfScopeNotFetched | crawl.js:67-71 | a head that contains neither base URL is appended to `visited`, is not fetched, and leaves rows, counters and the rest of the queue unchanged |
| Schedule.FetchErrorCounted | crawl.js:78-85 | the whole next state after a failed fetch: the head is removed from the queue and marked visited, one link is counted as processed, and nothing else changes (no row, nothing queued, the writer stays open) |
| Schedule.FetchSuccessRecorded | crawl.js:87-112 | the whole next state after a successful fetch: the head is removed and the admitted links are appended, the URL is marked visited, exactly one row (URL, status, title, description) is written, one processed link and one total link per queued link are counted, the writer stays open, and only unvisited URLs are queued |
| Schedule.FetchLogTracksStep | crawl.js:73-78 | a duplicate-free log of fetched URLs, all visited and as long as `processedLinks`, stays so when the call's fetch is added |
| Schedule.SeedOutOfScopeFetchesNothing | crawl.js:67-71 | a seed URL that contains neither base URL is dropped unfetched, and the second call closes the writer with no rows |
| Schedule.IterateKeepsInv | crawl.js:46-115 | the invariant holds after any number of calls |
| Schedule.ProcessedNeverExceedsTotal | crawl.js:33-107 | from the start, the processed count never exceeds the total count |
| Schedule.IterateOnlyAppends | crawl.js:68-92 | over any number of calls, `visited` and the rows only grow |
| Schedule.FifoOrder | crawl.js:53-106 | everything dequeued, followed by what is still queued, equals the initial queue followed by everything enqueued, in order |
| Schedule.FetchedAtMostOnce | crawl.js:54-77 | the URLs fetched over any number of calls are distinct, none was visited at the start, and all are visited at the end |
| Schedule.CountersCountWork | crawl.js:78-107 | over any number of calls, `processedLinks` grows by the number of fetches and `totalLinks` by the number of links queued |
| Schedule.RowsOf | crawl.js:87-92 | the rows a sequence of fetches writes, one per successful fetch in fetch order, never more than fetches |
| Schedule.StepRows | crawl.js:81-92 | a call writes the row of the URL it fetches when that fetch succeeds, and no other row |
| Schedule.RowsFollowFetchLog | crawl.js:81-92 | over any number of calls, the rows written are exactly one per successful fetch, in the order of the fetch log |
| Schedule.NextMakesProgress | crawl.js:46-115 | on a site whose in-scope pages link only within a finite set, a call closes the writer, visits a new URL of the set, or shortens the queue without visiting anything new |
| Schedule.CrawlReachesDone | crawl.js:46-51 | on a site whose in-scope pages link only within a finite set, some number of calls closes the writer |
| CrawlProgram.Crawler.constructor | crawl.js:11-33 | a new crawler holds the initial state: the seed queued, one link counted, nothing visited, processed or written |
| CrawlProgram.Crawler.EnqueueLinks | crawl.js:94-110 | the anchor loop appends exactly the admitted links to the queue and adds their number to `totalLinks` |
| CrawlProgram.Crawler.Step | crawl.js:46-115 | one call changes the crawler's state exactly as `Next` does, keeps the invariant, and hands to the network only the unvisited in-scope head |
| CrawlProgram.Crawler.Run | crawl.js:46-115 | calling `crawl()` until the writer closes ends with an empty queue, in the state `Iterate` gives after that many calls, with exactly the fetches of the fetch log and one row per successful fetch in fetch order |
| CrawlProgram.Start | crawl.js:21-33 | no crawler is created exactly when the URL is empty, lacks a protocol or a hostname, or is not http or https; otherwise the crawler is in the initial state and has fetched nothing |
| CrawlProgram.CrawlSite | crawl.js:7-119 | an invalid seed gives no output; a valid one gives the rows of a crawl that ran from the initial state until the writer closed, one per successful fetch in fetch order |
| CrawlExamples.ScopeOfExampleCom | crawl.js:59-67 | for `http://example.com`, `http://example.com/a` and `http://www.example.com/b` are in scope and `http://other.com/c` is not |
| CrawlExamples.AltOfExampleCom | crawl.js:59-65 | the alternate base URL of `http://example.com` is `http://www.example.com` |
| CrawlExamples.RelativeFooResolves | crawl.js:97-104 | the href `/foo` on the `http://example.com` site leads to `http://example.com/foo` and is followable |
| CrawlExamples.NotAUrlRefused | crawl.js:22 | the seed `not-a-url`, with no protocol and no hostname, is refused |
| CrawlExamples.BreadthFirstExample | crawl.js:53-112 | with the root linking to `/b` and `/c` and `/b` linking to `/d`, pages are fetched root, `/b`, `/c`, `/d` and the fifth call closes the writer; a failing `/c` writes no row but `/d` is still written |

## Left out

- The network request and the one-second `setTimeout` pacing (crawl.js:75-77, 114) are asynchronous I/O and timing. Each call fetches at most one URL through the `fetch` oracle, and the next call starts only after the response, as in the program.
- `fetch` is a function of the URL, so fetching the same URL twice would give the same answer. No URL is fetched twice (`Schedule.FetchedAtMostOnce`), so nothing depends on this.
- The HTML parse (crawl.js:87-89, 94-95) is a foreign library. The oracle supplies the title, the description (empty when missing) and the anchors, each with its raw `href` (empty when absent).
- URL parsing (crawl.js:8, 97) is a foreign library. Its results are inputs: a `Seed` carries the parser's protocol and hostname, and an `Anchor` carries the parse of its href.
- `Urls.HrefString` stands for the parser's serialisation (crawl.js:104) as `protocol//hostname` followed by everything after the host. It does not model user info, port normalisation or the forms printed for non-web schemes. Those links are never admitted, because their protocol is not http or https.
- The CSV writer and the output file (crawl.js:27-30, 48, 92) are I/O. They are modelled as an append-only sequence of rows and a `closed` flag. The header row is not modelled.
- The progress bar (crawl.js:35-44, 79, 118) is floating-point percentage arithmetic and terminal output. Only the two integer counters it reads are modelled.
- Reading `process.argv`, printing to the console and `process.exit` (crawl.js:7, 23-24, 49, 117) are process I/O. `CrawlProgram.Start` returns no crawler where the program exits.
- Schedule.Next: uses the alternate base URL held in `Site`. It is computed once from the fixed base URL, where the program recomputes it on every call. The result is the same, and `CrawlProgram.Crawler.Step` recomputes it on every call, as the program does.
- CrawlProgram.Crawler.Run: requires a finite set of URLs that holds the queue and every followable link of every in-scope page in it that fetches successfully. This is what makes termination provable. Out-of-scope pages are never fetched, so their links are not constrained. On a site whose in-scope pages lead to unboundedly many URLs, the program does not stop, and neither would the model.
- CrawlProgram.CrawlSite: requires the same finite set for a valid seed, because it runs `Run`.
- The recursion of `crawl()` into itself (crawl.js:55, 69, 83, 112) is modelled as the loop in `CrawlProgram.Crawler.Run`. Call-stack depth is not modelled.
