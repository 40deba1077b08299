/**
 * The scaffolding every adapter shares in crawler/crawler.go
 * (`baseProxyCrawler`): the page cursor advanced by `fetchPage`, the
 * registered listener (`OnFetch`), the run status (`Stop`) and the rule that
 * learns the number of pages once. The HTTP GET is an input: what it
 * answered and the document its body parses to.
 */
module BaseCrawler {
  import opened GoInt
  import opened Wrappers
  import opened PageText
  import opened ProxyList

  /** Values of the adapter status; the zero value is `StatusRunning`. */
  const StatusRunning: int32 := 0
  const StatusStop: int32 := 1

  /** The mutable part of an adapter: current and maximum page, whether a
      listener is registered, and the run status. */
  datatype State = State(currentPage: int, maxPage: int, hasListener: bool, status: int32)

  /** An adapter as constructed: nothing fetched, no listener. */
  const Initial: State := State(0, 0, false, 0)

  /** What an adapter reads from a parsed page: the texts of its pagination
      links and, row by row, the texts of the cells of its proxy table. */
  datatype Page = Page(pageLinks: seq<string>, rows: seq<seq<string>>)

  /** What the GET of one page returned: a transport error, or a response
      with its status, body length and the document the body parses to. */
  datatype Response =
    | TransportError
    | HttpResponse(status: int, bodyLength: nat, page: Page)

  /** The result of `fetchPage`: the advanced state, the page number that was
      requested, the document (None for a nil document) and whether an error
      was returned. */
  datatype PageResult = PageResult(state: State, requested: int, doc: Option<Page>, failed: bool)

  /** The cursor is at the last known page. */
  predicate AtLastPage(s: State) {
    s.maxPage != 0 && s.currentPage == s.maxPage
  }

  /** `fetchPage`: wrap to the start after the last known page (forgetting
      the page count), advance to the next page, then fetch it. A transport
      error, a status other than 200 or an empty body yields no document;
      only the transport error is reported as an error. */
  function FetchPage(s: State, resp: Response): (r: PageResult)
    ensures AtLastPage(s) ==> r.state.currentPage == 1 && r.state.maxPage == 0
    ensures !AtLastPage(s) ==>
              r.state.currentPage == s.currentPage + 1 && r.state.maxPage == s.maxPage
    ensures r.state.hasListener == s.hasListener && r.state.status == s.status
    ensures r.requested == r.state.currentPage
    ensures r.failed <==> resp.TransportError?
    ensures r.doc.Some? <==> resp.HttpResponse? && resp.status == 200 && resp.bodyLength > 0
    ensures r.doc.Some? ==> r.doc.value == resp.page
  {
    var s1 := if s.maxPage != 0 && s.currentPage == s.maxPage then s.(currentPage := 0, maxPage := 0) else s;
    var s2 := s1.(currentPage := s1.currentPage + 1);
    match resp
    case TransportError => PageResult(s2, s2.currentPage, None, true)
    case HttpResponse(status, bodyLength, page) =>
      if status != 200 || bodyLength == 0 then PageResult(s2, s2.currentPage, None, false)
      else PageResult(s2, s2.currentPage, Some(page), false)
  }

  /** While the cursor is within a known page count, every request is for a
      page between 1 and that count, and the last page is followed by page 1. */
  lemma FetchPageStaysInRange(s: State, resp: Response)
    requires 1 <= s.maxPage && 0 <= s.currentPage <= s.maxPage
    ensures 1 <= FetchPage(s, resp).requested <= s.maxPage
    ensures s.currentPage == s.maxPage ==> FetchPage(s, resp).requested == 1
    ensures s.currentPage < s.maxPage ==> FetchPage(s, resp).state.maxPage == s.maxPage
  {
  }

  /** The wrap test is an equality: once the cursor is past a known page
      count (the count was learned after failed fetches had advanced it),
      the cursor keeps advancing and never wraps. */
  lemma FetchPagePastLastNeverWraps(s: State, resp: Response)
    requires 0 < s.maxPage < s.currentPage
    ensures FetchPage(s, resp).requested == s.currentPage + 1
    ensures FetchPage(s, resp).state.maxPage == s.maxPage
    ensures 0 < FetchPage(s, resp).state.maxPage < FetchPage(s, resp).state.currentPage
  {
  }

  /** The unit test of `fetchPage`: at page 10 of 10 with an empty 200 body,
      page 1 is requested, the page count is forgotten, and neither a
      document nor an error comes back. */
  lemma FetchPageEmptyBodyAtLastPage(hasListener: bool, status: int32, page: Page)
    ensures var r := FetchPage(State(10, 10, hasListener, status), HttpResponse(200, 0, page));
      r.state.currentPage == 1 && r.state.maxPage == 0 && r.doc == None && !r.failed
  {
  }

  /** `OnFetch`: registers the listener and changes nothing else. */
  function OnFetch(s: State): (r: State)
    ensures r.hasListener
    ensures r.currentPage == s.currentPage && r.maxPage == s.maxPage && r.status == s.status
  {
    s.(hasListener := true)
  }

  /** The status an adapter's `Start` stores before entering its loop. */
  function Start(s: State): (r: State)
    ensures KeepsRunning(r)
    ensures r.currentPage == s.currentPage && r.maxPage == s.maxPage && r.hasListener == s.hasListener
  {
    s.(status := StatusRunning)
  }

  /** `Stop`: the status the loop checks before each fetch. */
  function Stop(s: State): (r: State)
    ensures r.status != StatusRunning
    ensures r.currentPage == s.currentPage && r.maxPage == s.maxPage && r.hasListener == s.hasListener
  {
    s.(status := StatusStop)
  }

  /** The check at the top of an adapter's `Start` loop. */
  function KeepsRunning(s: State): (r: bool)
    ensures s.status == StatusRunning ==> r
    ensures s.status == StatusStop ==> !r
  {
    s.status == StatusRunning
  }

  /** `Stop` ends the loop at its next check; `Start` (re)enters it, even
      after a `Stop`. */
  lemma StopEndsLoop(s: State)
    ensures !KeepsRunning(Stop(s))
    ensures KeepsRunning(Start(Stop(s)))
    ensures KeepsRunning(Initial)
  {
  }

  /** The page-count rule of every adapter, applied only while the count is
      unknown (0): the parsed link text, with a parse of 0 (an unparseable
      or empty text included) read as a single page. */
  function LearnMaxPage(maxPage: int, text: string): (r: int)
    ensures maxPage != 0 ==> r == maxPage
    ensures maxPage == 0 ==> r != 0
    ensures maxPage == 0 && Atoi(text) != 0 ==> r == Atoi(text)
    ensures maxPage == 0 && Atoi(text) == 0 ==> r == 1
  {
    if maxPage != 0 then maxPage
    else
      var max := Atoi(text);
      if max == 0 then 1 else max
  }

  /** The result of one adapter `fetch`: the new state and the records handed
      to the listener, in order. */
  datatype Fetched = Fetched(state: State, found: seq<Proxy>)

  /** A record as an adapter hands it over: address, port and a lowercase
      category all present; detection time, speed and failures still zero. */
  predicate Scraped(p: Proxy) {
    && p.ip != "" && p.port != "" && p.category != "" && NoUpper(p.category)
    && p.detectedAt == 0 && p.speed == 0 && p.fails == 0
  }

  /** The shape every adapter `fetch` shares: fetch the current page; on a
      failure stop there; otherwise learn the page count from the link text
      the adapter picks if it is still unknown, and hand every record the
      adapter extracts from the table rows to the listener, if one is
      registered. */
  function FetchWith(s: State, resp: Response, pageText: seq<string> -> string,
                     extract: (nat, seq<string>) -> Option<Proxy>): (r: Fetched)
    ensures var f := FetchPage(s, resp);
      && (f.doc.None? ==> r == Fetched(f.state, []))
      && r.state == f.state.(maxPage := r.state.maxPage)
      && (f.doc.Some? ==> r.state.maxPage == LearnMaxPage(f.state.maxPage, pageText(f.doc.value.pageLinks)))
      && (!s.hasListener ==> r.found == [])
      && (s.hasListener && f.doc.Some? ==> r.found == Collect(f.doc.value.rows, extract))
      && ((forall i: nat, row: seq<string> | extract(i, row).Some? :: Scraped(extract(i, row).value)) ==>
            forall p | p in r.found :: Scraped(p))
  {
    var f := FetchPage(s, resp);
    if f.failed || f.doc.None? then Fetched(f.state, [])
    else
      var page := f.doc.value;
      var st := if f.state.maxPage == 0 then f.state.(maxPage := LearnMaxPage(0, pageText(page.pageLinks))) else f.state;
      Fetched(st, if st.hasListener then Collect(page.rows, extract) else [])
  }

  /** A failed fetch hands nothing to the listener and leaves the page count
      as the cursor step left it; a successful one always ends with a known
      page count. */
  lemma FetchWithFailureAndCount(s: State, resp: Response, pageText: seq<string> -> string,
                                 extract: (nat, seq<string>) -> Option<Proxy>)
    ensures var f := FetchPage(s, resp); var r := FetchWith(s, resp, pageText, extract);
      && (f.doc.None? ==> r.found == [] && r.state.maxPage == f.state.maxPage)
      && (f.doc.Some? ==> r.state.maxPage != 0)
      && (f.doc.Some? && f.state.maxPage != 0 ==> r.state.maxPage == f.state.maxPage)
      && r.state.currentPage == f.state.currentPage
  {
  }
}
