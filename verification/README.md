# proxy-pool crawler core in Dafny

This project models the `crawler` package of proxy-pool. That package harvests public HTTP proxies from listing sites, checks that each one answers through itself, and keeps the healthy ones in a pool. The model covers:

- **The proxy list** (`crawler/proxylist.go`, module `ProxyList`). This is an ordered list in which no two entries share the identity (IP, port, category). The model covers `indexOf`, `Exists`, `Add`, `Remove`, `List`, `Reset`, `Size`, `Replace` and `FindOne`. The list is a value (`seq<Proxy>`), and every operation returns the new contents.
- **Detection and the two passes** (`crawler/crawler.go`, module `Crawler`):
  - latency bucketing against `speedDevides`;
  - `analyze` and `detectProxyList`;
  - the listener `addNewProxy`;
  - the single-flight flags;
  - the promotion pass `detectNewProxy` and the re-verification pass `RedetectAvailableProxy`.

  Module `Eviction` follows one entry of the available list through successive re-verification passes.
- **The adapter scaffolding** (`baseProxyCrawler` in `crawler/crawler.go`, module `BaseCrawler`). This covers the page cursor of `fetchPage`, `OnFetch`, `Stop`, the status check of the `Start` loops, and the once-only page-count rule.
- **The three site adapters' `fetch`** (`crawler/xici.go`, `crawler/kuai.go` and `crawler/ip66.go`; modules `Xici`, `Kuai` and `Ip66`). They are built on a shared `FetchWith`. Module `PageText` models what they use from goquery, `strings` and `strconv`.
- **A life-cycle scenario** (module `Scenario`): three proxies are discovered, two are promoted, and one of those is evicted after three failed passes.

The network is an input throughout:
- A `Probe` says what the probe GET through a proxy did and when detection ended.
- A `Response` says what a listing page GET returned and what document the body parses to.
- The random draw of `FindOne` is a parameter `pick`.

`int32`/`int64` fields are newtypes. `atomic.AddInt32` on the failure counter wraps explicitly (`GoInt.Inc32`). The Go loops run left to right, and the recursive definitions peel the last element so that they compute in the same order.

Three behaviours of the code are kept as written, although a reader of its comments might expect otherwise:

- `analyze` returns `true` for any HTTP response, 4xx and 5xx included. Only a 2xx/3xx response rewrites the speed bucket. A transport error, or a proxy for which no client can be built, gives `false` (`crawler/crawler.go:156-182`).
- The wrap test of `fetchPage` is `currentPage == maxPage`. Failed fetches advance the cursor before the page count is known. If that pushes the cursor past the count, the cursor never wraps again (`BaseCrawler.FetchPagePastLastNeverWraps`).
- `detectProxyList` appends from goroutines in completion order. The model keeps input order, which is one of the possible orders. Its contract states an exact partition by verdict and does not depend on order.

## Model

| member | source | states |
|---|---|---|
| GoInt.Inc32 | crawler/crawler.go:249 | `atomic.AddInt32(&p.Fails, 1)`: the result is the input plus one modulo 2^32, and it is larger than the input below `MaxInt32` |
| ProxyList.IndexOf | crawler/proxylist.go:41-52 | the result is -1 or a valid index; at a valid index the entry has the identity of `p` and no earlier entry has it; -1 exactly when no entry has it |
| ProxyList.Exists | crawler/proxylist.go:54-59 | true exactly when the identity of `p` is among the list's identities |
| ProxyList.AddOne | crawler/proxylist.go:71-76 | one candidate: no change when its identity is present, appended otherwise |
| ProxyList.Add | crawler/proxylist.go:61-77 | existing entries stay in place as a prefix; every appended entry is a candidate; the identities become the union; the no-duplicate invariant is preserved |
| ProxyList.AddAppendsFresh | crawler/proxylist.go:71-76 | `Add` equals the old list followed by exactly the first occurrence of each candidate identity not yet present, in argument order |
| ProxyList.AddPresentIsNoop | crawler/proxylist.go:72-74 | adding candidates whose identities are all present leaves the list unchanged (duplicate discovery is absorbed) |
| ProxyList.AddToEmptyKeepsOrder | crawler/proxylist.go:61-77 | adding a duplicate-free batch to an empty list yields that batch in order, and `Size` is its length |
| ProxyList.RemoveOne | crawler/proxylist.go:90-95 | one candidate: an absent identity changes nothing; a present one deletes exactly the first entry with that identity, keeping everything before and after it in order, so the list shortens by one; on a duplicate-free list it filters out exactly that identity |
| ProxyList.Remove | crawler/proxylist.go:79-96 | the result is a sub-multiset of the list; candidates disjoint from the list (an empty argument or an empty list included) change nothing; on a duplicate-free list the result is the list with the candidates' identities filtered out, order kept |
| ProxyList.RemoveFoldsLeft | crawler/proxylist.go:89-95 | the candidates act front to back, as the loop takes them: the first candidate's deletion happens first and the rest act on what it leaves, which with `RemoveOne` fixes the result on any list, duplicates included |
| ProxyList.RemoveDeletesExactly | crawler/proxylist.go:79-96 | on a duplicate-free list an entry survives exactly when its identity is not a candidate's; the invariant is kept |
| ProxyList.List | crawler/proxylist.go:97-102 | the snapshot is the list's contents, entry for entry |
| ProxyList.Reset | crawler/proxylist.go:105-111 | hands back the prior contents with their size, and the list is empty afterwards |
| ProxyList.Size | crawler/proxylist.go:113-118 | the count is the number of entries |
| ProxyList.Replace | crawler/proxylist.go:121-125 | the contents become the argument; the result is duplicate-free exactly when the argument is |
| ProxyList.ReplaceDoesNotDeduplicate | crawler/proxylist.go:121-125 | replacing with a list that repeats an identity breaks the invariant, since no deduplication happens |
| ProxyList.Candidates | crawler/proxylist.go:133-146 | the entries to choose from are exactly the list's entries that match the filters, where a negative speed or an empty category means "any" |
| ProxyList.FindOne | crawler/proxylist.go:128-151 | "not found" exactly when no entry matches; otherwise the answer is a matching entry of the list |
| ProxyList.FindOneCanReturnAnyMatch | crawler/proxylist.go:147-150 | every matching entry is returned for some draw |
| ProxyList.UnitTestScenario | crawler/proxylist_test.go:23-58 | the list's unit test: a double add keeps one entry, which `FindOne("http", 2)` returns whatever the draw; `Exists` separates the categories; `Reset` drains; `Replace` installs its argument |
| Crawler.FirstAbove | crawler/crawler.go:174-179 | the threshold loop stops at the first threshold above the duration, or past the last one |
| Crawler.FirstAboveMonotone | crawler/crawler.go:174-179 | against ascending thresholds a longer duration never gets a smaller index |
| Crawler.SpeedBucket | crawler/crawler.go:51 | bucket 0 below 750 ms, bucket 1 from 750 ms to below 1500 ms, bucket 2 from 1500 ms, each an if-and-only-if |
| Crawler.SpeedBucketMonotone | crawler/crawler.go:170-180 | bucketing is monotone in the elapsed time |
| Crawler.Analyze | crawler/crawler.go:156-182 | available exactly when a response arrived; only the speed can change, and it becomes the bucket of the elapsed time exactly on a 2xx/3xx status; otherwise the proxy is unchanged |
| Crawler.Detect | crawler/crawler.go:198-201 | the verdict of `analyze`; the detection time is stamped whatever the verdict; identity, failures and anonymity are unchanged |
| Crawler.DetectProxyList | crawler/crawler.go:190-213 | the two outputs split the detected batch exactly: their sizes add up to the batch's, together they are the detected batch as a multiset, every available proxy is on the first side and only there, and likewise for the unavailable |
| Crawler.AddNewProxy | crawler/crawler.go:185-187 | only the new list changes; its entries stay as a prefix; its identities gain the proxy's; both lists stay duplicate-free |
| Crawler.Ingest | crawler/crawler.go:261-265 | handing a batch of records to the registered listener changes only the new list: its entries stay as a prefix, its identities gain the batch's, and the invariant is kept |
| Crawler.IngestIsAdd | crawler/crawler.go:261-265 | the registered listener called once per discovered record equals one `Add` of all the records, in order |
| Crawler.TryAcquire | crawler/crawler.go:217-221 | the swap leaves the flag running and lets the caller proceed exactly when the flag was not running before |
| Crawler.GuardIsSingleFlight | crawler/crawler.go:217-221 | the swap leaves the flag running; it admits a pass exactly when the flag was not running (the zero value and `detectStop` both admit); a second swap is turned away and changes nothing |
| Crawler.BeginDetectNewProxy | crawler/crawler.go:217-222 | it starts exactly when the flag is not running; when turned away nothing changes; when started, the batch is the whole new list, the new list is emptied and the flag is set to running |
| Crawler.EndDetectNewProxy | crawler/crawler.go:223-226 | the available list keeps its entries as a prefix and gains only available proxies of the batch, with identities the union; the new list is untouched; the flag ends at `detectStop`; the invariant is kept |
| Crawler.DetectNewProxy | crawler/crawler.go:216-230 | a pass attempted while one runs changes nothing; otherwise the new list ends empty and the flag at `detectStop`; the re-verification flag is untouched; the invariant is kept |
| Crawler.PromotionMovesSurvivors | crawler/crawler.go:222-224 | every drained proxy that answered ends in the available list; none that failed was added to it |
| Crawler.PromotionIsSingleFlight | crawler/crawler.go:216-226 | while a promotion runs, a second trigger is dropped unchanged, and a proxy discovered meanwhile stays in the new list for the next pass instead of joining the batch |
| Crawler.Reverify | crawler/crawler.go:240-251 | available exactly when the probe got a response; a passing entry's counter is cleared and a failing entry's counter is incremented with wrap-around; the detection time is stamped from the probe and the speed is what `analyze` gives; identity and anonymity are kept |
| Crawler.FailProxyList | crawler/crawler.go:247-254 | every unavailable proxy whose incremented counter reaches 3 is listed, and nothing else is |
| Crawler.FailListIds | crawler/crawler.go:247-256 | the identities removed are exactly those of entries that failed with the incremented counter at 3 or more |
| Crawler.ReverifyPass | crawler/crawler.go:239-256 | on a duplicate-free list the pass adds nothing, keeps the invariant, and keeps an entry (with its updated counter) exactly when it is not evicted; the survivors are the updated list with the evicted identities filtered out, in the list's order |
| Crawler.ReverifyPassInOrder | crawler/crawler.go:239-256 | on a duplicate-free list, removing the fail list from the updated entries is the order-keeping filter that drops exactly the evicted identities |
| Crawler.RedetectAvailableProxy | crawler/crawler.go:233-258 | while a pass runs, nothing changes; otherwise only the available list and its flag change, the flag ending at `detectStop`; on a valid state the list becomes the updated entries minus the evicted identities, in order |
| Crawler.RedetectEffects | crawler/crawler.go:233-258 | the whole re-verification pass: a no-op while one is running; otherwise the entry-by-entry effect above, the survivors in the list's order, with the flag ending at `detectStop`; the new list and its flag are untouched |
| Eviction.HistoryCountsFailures | crawler/crawler.go:242-256 | over successive passes an entry starting at zero failures is evicted exactly when three consecutive probes failed; while it stays, its counter is the length of its current failure run (below 3) and its identity never changes |
| Eviction.ThreeStrikesEvict | crawler/crawler.go:248-256 | three failed passes in a row evict an entry whose counter was zero |
| Eviction.PassResetsCount | crawler/crawler.go:242-245 | two failures, a success and two more failures leave the entry in place with a count of 2 |
| Scenario.PromoteTwoOfThree | crawler/crawler.go:216-226 | three discovered proxies, two of which answer: promotion empties the new list and moves exactly those two, in order, with the detection time stamped |
| Scenario.ThreePassesEvictB | crawler/crawler.go:233-258 | with one promoted proxy always failing, its counter reads 1 and then 2, and the third pass leaves only the other proxy |
| BaseCrawler.FetchPage | crawler/crawler.go:107-128 | the cursor wraps to page 1 and forgets the page count exactly at the last known page, and advances by one otherwise; only a transport error is reported; a document comes back exactly for a 200 response with a non-empty body |
| BaseCrawler.FetchPageStaysInRange | crawler/crawler.go:110-114 | within a known page count every requested page lies between 1 and the count, and the last page is followed by page 1 |
| BaseCrawler.FetchPagePastLastNeverWraps | crawler/crawler.go:110-114 | a cursor already past a known page count keeps advancing and never wraps |
| BaseCrawler.FetchPageEmptyBodyAtLastPage | crawler/crawler_test.go:25-48 | at page 10 of 10, an empty 200 body requests page 1, forgets the page count, and returns neither a document nor an error |
| BaseCrawler.OnFetch | crawler/crawler.go:97-99 | registers the listener and changes nothing else |
| BaseCrawler.Stop | crawler/crawler.go:102-104 | the status is no longer running; the cursor and the listener are untouched |
| BaseCrawler.Start | crawler/xici.go:54-55 | `Start` sets the status so the loop keeps running, and leaves the cursor, page count and listener alone |
| BaseCrawler.KeepsRunning | crawler/xici.go:56-59 | the loop goes on for the running status and returns for the stopped one |
| BaseCrawler.StopEndsLoop | crawler/xici.go:54-64 | `Stop` ends the `Start` loop at its next check; `Start` runs again even after a `Stop`; a new adapter's status admits the loop |
| BaseCrawler.LearnMaxPage | crawler/xici.go:73-81 | a known page count is kept; an unknown one becomes `Atoi` of the link text, and 1 whenever `Atoi` gives 0 (text that does not parse included) |
| BaseCrawler.FetchWith | crawler/xici.go:67-108 | a failed fetch stops there and hands nothing over; otherwise the page count is learned by the rule above from the adapter's chosen link text; nothing reaches an unregistered listener; a registered one gets every record the adapter extracts, in row order; if the extractor yields only well-formed records, so does the fetch |
| BaseCrawler.FetchWithFailureAndCount | crawler/xici.go:68-81 | a failed fetch keeps the cursor step's page count and hands nothing over; a successful one always ends with a known page count, and never changes one already known |
| PageText.Eq | crawler/xici.go:74-75 | goquery's `Eq(i).Text()`: a non-negative index selects that element, a negative one counts from the end, and out of range gives the empty text |
| PageText.NextToLast | crawler/xici.go:74-75 | the page-count link of xici and 66ip (crawler/ip66.go:71-72 reads it the same way): the second-to-last pagination link; with a single link it is that link, and with none it is the empty text |
| PageText.LastLink | crawler/kuai.go:74-75 | the page-count link of kuaidaili: the last pagination link, or the empty text when there is none |
| PageText.ToLower | crawler/xici.go:92 | same length, each character lowercased |
| PageText.ToLowerProperties | crawler/xici.go:92 | no capital remains, other characters are kept, lowercasing is idempotent, and the result is empty exactly when the input is |
| PageText.ParseDecimal | crawler/xici.go:76 | the syntax `Atoi` accepts: after dropping one leading sign, it fails exactly when nothing is left or a non-digit remains; a '-' gives a value of at most 0 and otherwise the value is at least 0 |
| PageText.ParseDecimalRoundTrip | crawler/xici.go:76 | the decimal syntax `Atoi` accepts reads back the decimal rendering of every natural number, unsigned, with "+" or with "-" |
| PageText.AtoiRoundTrip | crawler/xici.go:76 | `Atoi` returns the value of every decimal rendering within the range of `int`, with or without a minus sign |
| PageText.Atoi | crawler/xici.go:76 | with the error ignored: once the leading digits exceed 2^64-1 the result is `MaxInt`, or `MinInt` after a '-', even if a non-digit follows; otherwise a syntax error gives 0; a value above `MaxInt` gives `MaxInt`, one below `MinInt` gives `MinInt`, and one in range is itself |
| PageText.AtoiOverflowBeforeSyntaxError | crawler/xici.go:76 | a digit run above 2^64-1 followed by a non-digit is a syntax error to the plain syntax, yet `Atoi` returns `MaxInt` for it |
| PageText.Collect | crawler/xici.go:83-106 | the records handed over are exactly those the rows yield: every one comes from some row, every yielding row contributes, and there are at most as many as rows |
| PageText.CollectInRowOrder | crawler/xici.go:83-106 | the records are handed over in row order, one for each yielding row: they match a strictly increasing sequence of row indices that contains every row that yields |
| Xici.Record | crawler/xici.go:83-105 | a record is well-formed (address, port and lowercase category present; counters zero) and never comes from the header row |
| Xici.RecordFromCells | crawler/xici.go:84-99 | a non-header row yields a record exactly when cells 1, 2 and 5 are non-empty; it carries those cells, the category lowercased, and is anonymous exactly when cell 4 reads "高匿" |
| Xici.Fetch | crawler/xici.go:67-108 | records handed over are well-formed and come from non-header rows; with a listener and a parsed page, exactly the records `Collect` gathers from the rows, in row order; a failed fetch hands nothing over; the page count comes from the second-to-last pagination link |
| Xici.TestPage | crawler/xici_test.go:26-84 | the adapter's test page: page 1 is requested, 10 pages are learned, and the one record is handed over with category "http" |
| Kuai.Record | crawler/kuai.go:82-98 | a record is well-formed and anonymous |
| Kuai.RecordFromCells | crawler/kuai.go:83-92 | any row, the first included, yields a record exactly when cells 0, 1 and 3 are non-empty; it carries those cells, the category lowercased |
| Kuai.Fetch | crawler/kuai.go:68-101 | records handed over are well-formed and may come from any row; with a listener and a parsed page, exactly the records `Collect` gathers from the rows, in row order; a failed fetch hands nothing over; the page count comes from the last pagination link |
| Kuai.TestPage | crawler/kuai_test.go:26-66 | the adapter's test page: page 1 is requested, 10 pages are learned, and the one record is handed over with category "http" |
| Ip66.Record | crawler/ip66.go:79-96 | a record is well-formed, anonymous, of category "http", and never comes from the header row |
| Ip66.RecordFromCells | crawler/ip66.go:84-89 | a non-header row yields a record exactly when cells 0 and 1 are non-empty, whatever its other cells hold |
| Ip66.Fetch | crawler/ip66.go:64-99 | records handed over are well-formed "http" records from non-header rows; with a listener and a parsed page, exactly the records `Collect` gathers from the rows, in row order; a failed fetch hands nothing over; the page count comes from the second-to-last pagination link |
| Ip66.TestPage | crawler/ip66_test.go:25-56 | the adapter's test page: page 1 is requested, 10 pages are learned, and the one record is handed over |

## Left out

- Network I/O is left out: the axios GETs, `NewProxyClient` and its transport settings, and the URLs and timeouts. Probe and page outcomes are inputs.
- Concurrency is modelled only as steps, because Dafny values have no goroutines. Not modelled:
  - the goroutines of `detectProxyList`, the five-slot semaphore and the `WaitGroup`;
  - the unsynchronised `append` on the shared result slices;
  - the read/write locks;
  - the atomics, beyond their arithmetic.

  Each pass is one atomic step. Single flight is modelled by splitting the promotion pass into a begin step and an end step.
- `Crawler.DetectProxyList`: fixes input order, where the source's order depends on goroutine completion.
- Pointer sharing is modelled by value. The source writes detection results through pointers shared with the list. The model returns the updated entries, and the re-verification pass installs them in the list.
- Time is not modelled:
  - `time.Sleep`, the one-minute self-rescheduling of `detectNewProxy`, the ten-second warm-up in `Crawler.Start`, and the adapters' fetch intervals;
  - the wall clock, which is the probe's `detectedAt` input;
  - the elapsed time, which is the response's `elapsed` input.
- The infinite `Start` loops of the adapters and the goroutine launch in `Crawler.Start` are left out. The model has the loop's status check (`BaseCrawler.KeepsRunning`), and the listener registration is `Crawler.IngestIsAdd`.
- `FindOne`'s random draw is the parameter `pick`. Seeding `math/rand` is left out.
- HTML parsing and CSS selectors are left out. A `Page` is already the list of pagination-link texts and the cell texts of each table row. A parse error from `goquery.NewDocumentFromReader` is not modelled.
- `PageText.ToLower`: folds ASCII letters only, not the full Unicode case mapping of `strings.ToLower`.
- `PageText.Atoi`: models `strconv.Atoi` for a 64-bit `int` only. The clamping and the early overflow return of `ParseUint` are modelled; the 32-bit platform variant is not.
- `BaseCrawler.FetchPage`: `currentPage` is an unbounded integer. Go's `int` overflow after 2^63 fetches is not modelled.
- Logging (`zap`) is left out, and so is the error value returned by `fetch`, which every caller discards.
- `config/`, `service/`, `controller/`, `web/` and `main.go` are not part of this model.
