/**
 * The life cycle of three discovered proxies through the crawler of
 * crawler/crawler.go: ingestion, one promotion pass, and three
 * re-verification passes in which one promoted proxy keeps failing.
 */
module Scenario {
  import opened GoInt
  import opened ProxyList
  import opened Crawler

  const A: Proxy := Proxy(0, "10.0.0.1", "80", "http", true, 0, 0)
  const B: Proxy := Proxy(0, "10.0.0.2", "80", "http", true, 0, 0)
  const C: Proxy := Proxy(0, "10.0.0.3", "80", "http", true, 0, 0)

  /** A fast successful probe and an unreachable proxy, ending at second `t`. */
  function Ok(t: int64): Probe {
    Probe(Responded(200, 100_000_000), t)
  }

  function Down(t: int64): Probe {
    Probe(RequestFailed, t)
  }

  /** `detectProxyList` of a batch extended by one proxy records that
      proxy's verdict after the others'. */
  lemma DetectSnoc(list: seq<Proxy>, probes: seq<Probe>, x: Proxy, px: Probe)
    requires |probes| == |list|
    ensures DetectProxyList(list + [x], probes + [px]) == AppendResult(DetectProxyList(list, probes), Detect(x, px))
  {
    assert (list + [x])[..|list|] == list && (probes + [px])[..|list|] == probes;
  }

  /** A successful fast probe stamps the time and sets the fast bucket; a
      failed one only stamps the time. */
  lemma DetectOkDown(p: Proxy, t: int64)
    ensures Detect(p, Ok(t)) == Analysis(true, p.(detectedAt := t, speed := 0))
    ensures Detect(p, Down(t)) == Analysis(false, p.(detectedAt := t))
  {
    assert SpeedBucket(100_000_000) == 0;
  }

  lemma NoDupThree(a: Proxy, b: Proxy, c: Proxy)
    requires Id(a) != Id(b) && Id(a) != Id(c) && Id(b) != Id(c)
    ensures NoDup([a, b, c])
  {
  }

  /** Ingesting three proxies of distinct identities lists them in order. */
  lemma IngestThree(a: Proxy, b: Proxy, c: Proxy)
    requires NoDup([a, b, c])
    ensures Ingest(Initial, [a, b, c]) == Crawler([a, b, c], [], 0, 0)
  {
    IngestIsAdd(Initial, [a, b, c]);
    AddToEmptyKeepsOrder([a, b, c]);
  }

  /** `detectProxyList` of one, two and three proxies, verdict by verdict. */
  lemma DetectUnfoldOne(a: Proxy, pa: Probe)
    ensures DetectProxyList([a], [pa]) == AppendResult(Partition([], []), Detect(a, pa))
  {
    assert [a][..0] == [] && [pa][..0] == [];
  }

  lemma DetectUnfoldTwo(a: Proxy, b: Proxy, pa: Probe, pb: Probe)
    ensures DetectProxyList([a, b], [pa, pb])
            == AppendResult(AppendResult(Partition([], []), Detect(a, pa)), Detect(b, pb))
  {
    DetectUnfoldOne(a, pa);
    DetectSnoc([a], [pa], b, pb);
    assert [a] + [b] == [a, b] && [pa] + [pb] == [pa, pb];
  }

  lemma DetectUnfoldThree(a: Proxy, b: Proxy, c: Proxy, pa: Probe, pb: Probe, pc: Probe)
    ensures DetectProxyList([a, b, c], [pa, pb, pc])
            == AppendResult(AppendResult(AppendResult(Partition([], []), Detect(a, pa)), Detect(b, pb)), Detect(c, pc))
  {
    DetectUnfoldTwo(a, b, pa, pb);
    DetectSnoc([a, b], [pa, pb], c, pc);
    assert [a, b] + [c] == [a, b, c] && [pa, pb] + [pc] == [pa, pb, pc];
  }

  lemma DetectThree(a: Proxy, b: Proxy, c: Proxy)
    requires a.speed == 0 && b.speed == 0
    ensures DetectProxyList([a, b, c], [Ok(1), Ok(1), Down(1)]).available
            == [a.(detectedAt := 1), b.(detectedAt := 1)]
  {
    DetectUnfoldThree(a, b, c, Ok(1), Ok(1), Down(1));
    DetectOkDown(a, 1);
    DetectOkDown(b, 1);
    DetectOkDown(c, 1);
  }

  lemma AddPair(x: Proxy, y: Proxy)
    requires Id(x) != Id(y)
    ensures Add([], [x, y]) == [x, y]
  {
    assert NoDup([x, y]);
    AddToEmptyKeepsOrder([x, y]);
  }

  /** Promotion of [a, b, c] in which a and b answer and c does not. */
  lemma PromoteThree(a: Proxy, b: Proxy, c: Proxy)
    requires Id(a) != Id(b)
    requires a.speed == 0 && b.speed == 0
    ensures var r := DetectNewProxy(Crawler([a, b, c], [], 0, 0), [Ok(1), Ok(1), Down(1)]);
      && r.newProxyList == []
      && r.availableProxyList == [a.(detectedAt := 1), b.(detectedAt := 1)]
  {
    DetectThree(a, b, c);
    AddPair(a.(detectedAt := 1), b.(detectedAt := 1));
  }

  /** A and B answer, C does not: promotion moves A and B, in that order,
      with the detection time stamped, and drops C. */
  lemma PromoteTwoOfThree()
    ensures var c := Ingest(Initial, [A, B, C]);
      && c.newProxyList == [A, B, C]
      && DetectNewProxy(c, [Ok(1), Ok(1), Down(1)]).availableProxyList
         == [A.(detectedAt := 1), B.(detectedAt := 1)]
      && DetectNewProxy(c, [Ok(1), Ok(1), Down(1)]).newProxyList == []
  {
    assert Id(A) != Id(B) by { assert A.ip[7] != B.ip[7]; }
    assert Id(A) != Id(C) by { assert A.ip[7] != C.ip[7]; }
    assert Id(B) != Id(C) by { assert B.ip[7] != C.ip[7]; }
    NoDupThree(A, B, C);
    IngestThree(A, B, C);
    PromoteThree(A, B, C);
  }

  /** One re-verification pass over the two promoted proxies in which A
      answers and B does not. */
  function Pass(c: Crawler, t: int64): Crawler
    requires |c.availableProxyList| == 2
  {
    RedetectAvailableProxy(c, [Ok(t), Down(t)])
  }

  /** B's counter climbs to 1 and then 2 while it stays; the third failed
      pass in a row evicts it, leaving A alone with a zero counter. */
  lemma ThreePassesEvictB()
    ensures var c1 := Crawler([], [A.(detectedAt := 1), B.(detectedAt := 1)], DetectStop, 0);
      var c2 := Pass(c1, 2);
      && c2.availableProxyList == [A.(detectedAt := 2), B.(detectedAt := 2, fails := 1)]
      && var c3 := Pass(c2, 3);
      && c3.availableProxyList == [A.(detectedAt := 3), B.(detectedAt := 3, fails := 2)]
      && var c4 := Pass(c3, 4);
      && c4.availableProxyList == [A.(detectedAt := 4)]
      && c4.availableProxyDetectStatus == DetectStop
  {
    var c1 := Crawler([], [A.(detectedAt := 1), B.(detectedAt := 1)], DetectStop, 0);
    assert Id(A) != Id(B) by { assert A.ip[7] != B.ip[7]; }
    PassStep(A.(detectedAt := 1), B.(detectedAt := 1), 2);
    var c2 := Pass(c1, 2);
    PassStep(A.(detectedAt := 2), B.(detectedAt := 2, fails := 1), 3);
    var c3 := Pass(c2, 3);
    PassStep(A.(detectedAt := 3), B.(detectedAt := 3, fails := 2), 4);
  }

  /** Detection of a pair [a, b] in which a answers and b does not. */
  lemma DetectPair(a: Proxy, b: Proxy, t: int64)
    requires a.speed == 0
    ensures DetectProxyList([a, b], [Ok(t), Down(t)]) == Partition([a.(detectedAt := t)], [b.(detectedAt := t)])
  {
    DetectUnfoldTwo(a, b, Ok(t), Down(t));
    DetectOkDown(a, t);
    DetectOkDown(b, t);
  }

  /** The counter updates of that pair. */
  lemma UpdatedPair(a: Proxy, b: Proxy, t: int64)
    requires a.speed == 0
    ensures Updated([a, b], [Ok(t), Down(t)])
            == [a.(detectedAt := t, fails := 0), b.(detectedAt := t, fails := Inc32(b.fails))]
  {
    DetectOkDown(a, t);
    DetectOkDown(b, t);
  }

  lemma FailOne(x: Proxy)
    ensures Inc32(x.fails) >= 3 ==> FailProxyList([x]) == [x.(fails := Inc32(x.fails))]
    ensures Inc32(x.fails) < 3 ==> FailProxyList([x]) == []
  {
    assert [x][..0] == [];
  }

  lemma RemoveSecond(x: Proxy, y: Proxy, z: Proxy)
    requires Id(x) != Id(z) && Id(y) == Id(z)
    ensures Remove([x, y], [z]) == [x]
  {
    assert [z][..0] == [];
    assert IndexOf([x, y], z) == 1 by {
      assert [x, y][1..] == [y];
    }
    assert [x, y][..1] == [x];
  }

  /** The pass over [a, b] is the removal of the fail list from the updated
      pair. */
  lemma PassUnfold(a: Proxy, b: Proxy, t: int64)
    requires a.speed == 0
    ensures RedetectAvailableProxy(Crawler([], [a, b], DetectStop, 0), [Ok(t), Down(t)])
            == Crawler([], Remove([a.(detectedAt := t, fails := 0), b.(detectedAt := t, fails := Inc32(b.fails))],
                                  FailProxyList([b.(detectedAt := t)])),
                       DetectStop, DetectStop)
  {
    DetectPair(a, b, t);
    UpdatedPair(a, b, t);
  }

  /** The pass over [a, b] when b's incremented counter stays below 3. */
  lemma PassKeeps(a: Proxy, b: Proxy, t: int64)
    requires Id(a) != Id(b)
    requires a.speed == 0 && a.fails == 0 && 0 <= b.fails < 2
    ensures RedetectAvailableProxy(Crawler([], [a, b], DetectStop, 0), [Ok(t), Down(t)]).availableProxyList
            == [a.(detectedAt := t), b.(detectedAt := t, fails := b.fails + 1)]
  {
    PassUnfold(a, b, t);
    FailOne(b.(detectedAt := t));
    assert Inc32(b.fails) == b.fails + 1;
    var up := [a.(detectedAt := t, fails := 0), b.(detectedAt := t, fails := Inc32(b.fails))];
    var none: seq<Proxy> := [];
    assert FailProxyList([b.(detectedAt := t)]) == none;
    RemoveNone(up, none);
    assert up == [a.(detectedAt := t), b.(detectedAt := t, fails := b.fails + 1)];
  }

  /** The pass over [a, b] when b's incremented counter reaches 3. */
  lemma PassEvicts(a: Proxy, b: Proxy, t: int64)
    requires Id(a) != Id(b)
    requires a.speed == 0 && a.fails == 0 && b.fails == 2
    ensures RedetectAvailableProxy(Crawler([], [a, b], DetectStop, 0), [Ok(t), Down(t)]).availableProxyList
            == [a.(detectedAt := t)]
  {
    PassUnfold(a, b, t);
    FailOne(b.(detectedAt := t));
    assert Inc32(b.fails) == b.fails + 1;
    var b' := b.(detectedAt := t, fails := b.fails + 1);
    RemoveSecond(a.(detectedAt := t), b', b');
  }

  /** One pass over [a, b] with a answering and b failing, for entries with
      distinct identities. */
  lemma PassStep(a: Proxy, b: Proxy, t: int64)
    requires Id(a) != Id(b)
    requires a.speed == 0 && a.fails == 0 && 0 <= b.fails < 3
    ensures var r := RedetectAvailableProxy(Crawler([], [a, b], DetectStop, 0), [Ok(t), Down(t)]);
      && r.availableProxyDetectStatus == DetectStop
      && (b.fails < 2 ==>
            r.availableProxyList == [a.(detectedAt := t), b.(detectedAt := t, fails := b.fails + 1)])
      && (b.fails == 2 ==> r.availableProxyList == [a.(detectedAt := t)])
  {
    if b.fails < 2 {
      PassKeeps(a, b, t);
    } else {
      PassEvicts(a, b, t);
    }
  }
}
