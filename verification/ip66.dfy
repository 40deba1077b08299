/**
 * The 66ip adapter's `fetch` (crawler/ip66.go): the page count is the text
 * of the second to last pagination link, the first table row is a header,
 * each further row gives address and port in cells 0 and 1, and every
 * record is taken as an anonymous "http" proxy.
 */
module Ip66 {
  import opened Wrappers
  import opened ProxyList
  import opened PageText
  import opened BaseCrawler

  /** The category every record of this site gets. */
  const Category: string := "http"

  /** The record row `i` yields, if any. */
  function Record(i: nat, row: seq<string>): (r: Option<Proxy>)
    ensures r.Some? ==> Scraped(r.value) && r.value.anonymous && r.value.category == Category
    ensures r.Some? ==> i != 0
  {
    var ip := Cell(row, 0);
    var port := Cell(row, 1);
    if i == 0 || ip == "" || port == "" then None
    else Some(Proxy(0, ip, port, Category, true, 0, 0))
  }

  /** A row other than the header yields a record exactly when its address
      and port cells are non-empty, whatever its other cells hold; the record
      carries those two cells. */
  lemma RecordFromCells(i: nat, row: seq<string>)
    ensures Record(i, row).Some? <==> i != 0 && Cell(row, 0) != "" && Cell(row, 1) != ""
    ensures Record(i, row).Some? ==>
      Record(i, row).value.ip == Cell(row, 0) && Record(i, row).value.port == Cell(row, 1)
    ensures forall other: seq<string> | Cell(other, 0) == Cell(row, 0) && Cell(other, 1) == Cell(row, 1) ::
      Record(i, other) == Record(i, row)
  {
  }

  /** One `fetch`: fetch the next page; on success learn the page count if
      unknown and hand every record of the table to the listener. */
  function Fetch(s: State, resp: Response): (r: Fetched)
    ensures forall p | p in r.found :: Scraped(p) && p.category == Category
    ensures !s.hasListener ==> r.found == []
    ensures FetchPage(s, resp).doc.None? ==> r == Fetched(FetchPage(s, resp).state, [])
    ensures FetchPage(s, resp).doc.Some? ==>
      r.state.maxPage == LearnMaxPage(FetchPage(s, resp).state.maxPage,
                                      NextToLast(resp.page.pageLinks))
    ensures s.hasListener && FetchPage(s, resp).doc.Some? ==>
      forall p | p in r.found :: exists i | 1 <= i < |resp.page.rows| :: Record(i, resp.page.rows[i]) == Some(p)
    ensures s.hasListener && FetchPage(s, resp).doc.Some? ==> r.found == Collect(resp.page.rows, Record)
  {
    FetchWith(s, resp, NextToLast, Record)
  }

  /** The adapter's test page: a header row and one row for
      183.166.71.93:9999 under pagination links "10" and "". The first fetch
      requests page 1, learns 10 pages and hands over the one record. */
  lemma TestPage()
    ensures var row := ["183.166.71.93", "9999", "安徽省淮南市", "高匿代理", "2019年12月14日14时 验证"];
      var page := Page(["10", ""], [[], row]);
      var r := Fetch(OnFetch(Initial), HttpResponse(200, 1000, page));
      && r.state.currentPage == 1
      && r.state.maxPage == 10
      && r.found == [Proxy(0, "183.166.71.93", "9999", "http", true, 0, 0)]
  {
    var row := ["183.166.71.93", "9999", "安徽省淮南市", "高匿代理", "2019年12月14日14时 验证"];
    var page := Page(["10", ""], [[], row]);
    assert Atoi("10") == 10 by {
      assert AllDigits("10");
      assert DigitsValue("10") == 10 by { assert "10"[..1] == "1"; }
    }
    assert Record(0, []) == None;
    assert page.rows[..1] == [[]];
  }
}
