/**
 * The kuaidaili adapter's `fetch` (crawler/kuai.go): the page count is the
 * text of the last pagination link, every table body row is data, each
 * giving address, port and category in cells 0, 1 and 3, and every record
 * is taken as anonymous.
 */
module Kuai {
  import opened Wrappers
  import opened ProxyList
  import opened PageText
  import opened BaseCrawler

  /** The record row `i` yields, if any. */
  function Record(i: nat, row: seq<string>): (r: Option<Proxy>)
    ensures r.Some? ==> Scraped(r.value) && r.value.anonymous
  {
    var ip := Cell(row, 0);
    var port := Cell(row, 1);
    var category := ToLower(Cell(row, 3));
    ToLowerProperties(Cell(row, 3));
    if ip == "" || port == "" || category == "" then None
    else Some(Proxy(0, ip, port, category, true, 0, 0))
  }

  /** Any row, the first included, yields a record exactly when its address,
      port and category cells are all non-empty; the record carries those
      cells, the category lowercased. */
  lemma RecordFromCells(i: nat, row: seq<string>)
    ensures Record(i, row).Some? <==> Cell(row, 0) != "" && Cell(row, 1) != "" && Cell(row, 3) != ""
    ensures Record(i, row).Some? ==>
      && Record(i, row).value.ip == Cell(row, 0)
      && Record(i, row).value.port == Cell(row, 1)
      && Record(i, row).value.category == ToLower(Cell(row, 3))
  {
    ToLowerProperties(Cell(row, 3));
  }

  /** One `fetch`: fetch the next page; on success learn the page count if
      unknown and hand every record of the table to the listener. */
  function Fetch(s: State, resp: Response): (r: Fetched)
    ensures forall p | p in r.found :: Scraped(p)
    ensures !s.hasListener ==> r.found == []
    ensures FetchPage(s, resp).doc.None? ==> r == Fetched(FetchPage(s, resp).state, [])
    ensures FetchPage(s, resp).doc.Some? ==>
      r.state.maxPage == LearnMaxPage(FetchPage(s, resp).state.maxPage,
                                      LastLink(resp.page.pageLinks))
    ensures s.hasListener && FetchPage(s, resp).doc.Some? ==>
      forall p | p in r.found :: exists i | 0 <= i < |resp.page.rows| :: Record(i, resp.page.rows[i]) == Some(p)
    ensures s.hasListener && FetchPage(s, resp).doc.Some? ==> r.found == Collect(resp.page.rows, Record)
  {
    FetchWith(s, resp, LastLink, Record)
  }

  /** The adapter's test page: one row for 171.13.103.213:9999, category
      "HTTP", under a single pagination link "10". The first fetch requests
      page 1, learns 10 pages and hands over the one record with its category
      lowercased. */
  lemma TestPage()
    ensures var row := ["171.13.103.213", "9999", "高匿名", "HTTP", "河南省鹤壁市  电信", "2秒", "2019-12-14 15:31:01"];
      var page := Page(["10"], [row]);
      var r := Fetch(OnFetch(Initial), HttpResponse(200, 1000, page));
      && r.state.currentPage == 1
      && r.state.maxPage == 10
      && r.found == [Proxy(0, "171.13.103.213", "9999", "http", true, 0, 0)]
  {
    var row := ["171.13.103.213", "9999", "高匿名", "HTTP", "河南省鹤壁市  电信", "2秒", "2019-12-14 15:31:01"];
    var page := Page(["10"], [row]);
    assert Atoi("10") == 10 by {
      assert AllDigits("10");
      assert DigitsValue("10") == 10 by { assert "10"[..1] == "1"; }
    }
    assert ToLower("HTTP") == "http";
    assert Record(0, row) == Some(Proxy(0, "171.13.103.213", "9999", "http", true, 0, 0));
    assert page.rows[..0] == [];
  }
}
