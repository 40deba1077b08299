/**
 * The xici adapter's `fetch` (crawler/xici.go): the page count is the text
 * of the second to last pagination link, the first table row is a header,
 * and each further row gives address, port, anonymity and category in
 * cells 1, 2, 4 and 5.
 */
module Xici {
  import opened Wrappers
  import opened ProxyList
  import opened PageText
  import opened BaseCrawler

  /** The anonymity cell text that marks a high-anonymity proxy. */
  const HighAnonymity: string := "高匿"

  /** The record row `i` yields, if any. */
  function Record(i: nat, row: seq<string>): (r: Option<Proxy>)
    ensures r.Some? ==> Scraped(r.value)
    ensures r.Some? ==> i != 0
  {
    var ip := Cell(row, 1);
    var port := Cell(row, 2);
    var anonymous := Cell(row, 4) == HighAnonymity;
    var category := ToLower(Cell(row, 5));
    ToLowerProperties(Cell(row, 5));
    if i == 0 || ip == "" || port == "" || category == "" then None
    else Some(Proxy(0, ip, port, category, anonymous, 0, 0))
  }

  /** A row other than the header yields a record exactly when its address,
      port and category cells are all non-empty; the record carries those
      cells, the category lowercased, and is anonymous exactly when the
      anonymity cell says so. */
  lemma RecordFromCells(i: nat, row: seq<string>)
    ensures Record(i, row).Some? <==>
      i != 0 && Cell(row, 1) != "" && Cell(row, 2) != "" && Cell(row, 5) != ""
    ensures Record(i, row).Some? ==>
      && Record(i, row).value.ip == Cell(row, 1)
      && Record(i, row).value.port == Cell(row, 2)
      && Record(i, row).value.category == ToLower(Cell(row, 5))
      && (Record(i, row).value.anonymous <==> Cell(row, 4) == HighAnonymity)
  {
    ToLowerProperties(Cell(row, 5));
  }

  /** One `fetch`: fetch the next page; on success learn the page count if
      unknown and hand every record of the table to the listener. */
  function Fetch(s: State, resp: Response): (r: Fetched)
    ensures forall p | p in r.found :: Scraped(p)
    ensures !s.hasListener ==> r.found == []
    ensures FetchPage(s, resp).doc.None? ==> r == Fetched(FetchPage(s, resp).state, [])
    ensures FetchPage(s, resp).doc.Some? ==>
      r.state.maxPage == LearnMaxPage(FetchPage(s, resp).state.maxPage,
                                      NextToLast(resp.page.pageLinks))
    ensures s.hasListener && FetchPage(s, resp).doc.Some? ==>
      forall p | p in r.found :: exists i | 1 <= i < |resp.page.rows| :: Record(i, resp.page.rows[i]) == Some(p)
    ensures s.hasListener && FetchPage(s, resp).doc.Some? ==> r.found == Collect(resp.page.rows, Record)
  {
    FetchWith(s, resp, NextToLast, Record)
  }

  /** The adapter's test page: a header row and one row for 183.154.49.8:9999,
      high anonymity, category "HTTP", under pagination links "10" and "".
      The first fetch requests page 1, learns 10 pages and hands over the one
      record with its category lowercased. */
  lemma TestPage()
    ensures var row := ["", "183.154.49.8", "9999", "浙江金华", "高匿", "HTTP", "", "", "1分钟", "19-12-14 16:21"];
      var page := Page(["10", ""], [[], row]);
      var r := Fetch(OnFetch(Initial), HttpResponse(200, 1000, page));
      && r.state.currentPage == 1
      && r.state.maxPage == 10
      && r.found == [Proxy(0, "183.154.49.8", "9999", "http", true, 0, 0)]
  {
    var row := ["", "183.154.49.8", "9999", "浙江金华", "高匿", "HTTP", "", "", "1分钟", "19-12-14 16:21"];
    var page := Page(["10", ""], [[], row]);
    assert Atoi("10") == 10 by {
      assert AllDigits("10");
      assert DigitsValue("10") == 10 by { assert "10"[..1] == "1"; }
    }
    assert ToLower("HTTP") == "http";
    assert Record(0, []) == None;
    assert Record(1, row) == Some(Proxy(0, "183.154.49.8", "9999", "http", true, 0, 0));
    assert page.rows[..1] == [[]];
  }
}
