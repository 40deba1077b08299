/**
 * The eviction policy of `RedetectAvailableProxy` (crawler/crawler.go) seen
 * across successive passes: an entry that starts with a zero failure
 * counter is evicted exactly when three consecutive passes fail it, and
 * while it stays its counter is the length of its current run of failures.
 */
module Eviction {
  import opened GoInt
  import opened Wrappers
  import opened ProxyList
  import opened Crawler

  /** One pass's effect on one entry: gone, or kept with its new state. */
  function ReverifyOne(p: Proxy, probe: Probe): Option<Proxy> {
    var a := Reverify(p, probe);
    if Evicted(a) then None else Some(a.proxy)
  }

  /** An entry's fate over successive passes, one probe per pass; once
      evicted it takes part in no further pass. */
  function History(p: Proxy, probes: seq<Probe>): Option<Proxy>
    decreases |probes|
  {
    if |probes| == 0 then Some(p)
    else
      match History(p, probes[..|probes| - 1])
      case None => None
      case Some(q) => ReverifyOne(q, probes[|probes| - 1])
  }

  predicate Failed(probe: Probe) {
    !probe.outcome.Responded?
  }

  /** The length of the run of failed probes at the end of `probes`. */
  function TrailingFailures(probes: seq<Probe>): nat
    decreases |probes|
  {
    if |probes| == 0 || !Failed(probes[|probes| - 1]) then 0
    else TrailingFailures(probes[..|probes| - 1]) + 1
  }

  /** Some three consecutive probes all failed. */
  predicate ThreeFailuresInARow(probes: seq<Probe>) {
    exists i | 0 <= i && i + 2 < |probes| ::
      Failed(probes[i]) && Failed(probes[i + 1]) && Failed(probes[i + 2])
  }

  /** A run of at least three failures ends `probes` exactly when its last
      three probes failed. */
  lemma TrailingThree(probes: seq<Probe>)
    ensures TrailingFailures(probes) >= 3 <==>
      |probes| >= 3 && Failed(probes[|probes| - 1]) && Failed(probes[|probes| - 2])
      && Failed(probes[|probes| - 3])
  {
    var n := |probes|;
    if n >= 1 && Failed(probes[n - 1]) {
      var p1 := probes[..n - 1];
      if n >= 2 && Failed(p1[n - 2]) {
        var p2 := p1[..n - 2];
        assert p2 == probes[..n - 2];
        if n >= 3 {
          assert p2[n - 3] == probes[n - 3];
        }
      }
    }
  }

  /** The three probes ending at index `k` all failed. */
  predicate FailedRun(h: seq<Probe>, k: int)
    requires 0 <= k < |h|
  {
    k >= 2 && Failed(h[k - 2]) && Failed(h[k - 1]) && Failed(h[k])
  }

  lemma WindowKept(probes: seq<Probe>, x: Probe)
    requires ThreeFailuresInARow(probes)
    ensures ThreeFailuresInARow(probes + [x])
  {
    var h := probes + [x];
    var i :| 0 <= i && i + 2 < |probes| &&
      Failed(probes[i]) && Failed(probes[i + 1]) && Failed(probes[i + 2]);
    assert h[i] == probes[i] && h[i + 1] == probes[i + 1] && h[i + 2] == probes[i + 2];
  }

  lemma WindowFound(probes: seq<Probe>, x: Probe)
    requires ThreeFailuresInARow(probes + [x])
    ensures ThreeFailuresInARow(probes) || FailedRun(probes + [x], |probes|)
  {
    var h := probes + [x];
    var i :| 0 <= i && i + 2 < |h| && Failed(h[i]) && Failed(h[i + 1]) && Failed(h[i + 2]);
    if i + 2 < |probes| {
      assert h[i] == probes[i] && h[i + 1] == probes[i + 1] && h[i + 2] == probes[i + 2];
    }
  }

  /** A window of three failures in `probes + [x]` lies in `probes` or ends
      at `x`. */
  lemma WindowSnoc(probes: seq<Probe>, x: Probe)
    ensures var h := probes + [x];
      ThreeFailuresInARow(h) <==>
        ThreeFailuresInARow(probes)
        || (|h| >= 3 && Failed(h[|h| - 1]) && Failed(h[|h| - 2]) && Failed(h[|h| - 3]))
  {
    var h := probes + [x];
    if ThreeFailuresInARow(probes) {
      WindowKept(probes, x);
    }
    if ThreeFailuresInARow(h) {
      WindowFound(probes, x);
    }
    if |h| >= 3 && Failed(h[|h| - 1]) && Failed(h[|h| - 2]) && Failed(h[|h| - 3]) {
      assert 0 <= |h| - 3;
    }
  }

  /** Starting from a zero counter, an entry is evicted exactly when some
      three consecutive passes fail it; while it stays, its counter is the
      number of passes it has failed since it last passed, which is below 3,
      and its identity never changes. */
  lemma {:induction false} HistoryCountsFailures(p: Proxy, probes: seq<Probe>)
    requires p.fails == 0
    ensures History(p, probes).None? <==> ThreeFailuresInARow(probes)
    ensures History(p, probes).Some? ==>
      && History(p, probes).value.fails as int == TrailingFailures(probes)
      && TrailingFailures(probes) < 3
      && Id(History(p, probes).value) == Id(p)
    decreases |probes|
  {
    if |probes| > 0 {
      var n := |probes| - 1;
      var init, x := probes[..n], probes[n];
      assert probes == init + [x];
      HistoryCountsFailures(p, init);
      WindowSnoc(init, x);
      TrailingThree(probes);
      TrailingThree(init);
      if History(p, init).Some? {
        var q := History(p, init).value;
        if !Failed(x) {
          assert Reverify(q, x).proxy.fails == 0;
        } else {
          assert Reverify(q, x).proxy.fails as int == q.fails as int + 1;
        }
      }
    }
  }

  /** Three failed passes in a row evict an entry whose counter was zero. */
  lemma ThreeStrikesEvict(p: Proxy, f1: Probe, f2: Probe, f3: Probe)
    requires p.fails == 0
    requires Failed(f1) && Failed(f2) && Failed(f3)
    ensures History(p, [f1, f2, f3]) == None
  {
    HistoryCountsFailures(p, [f1, f2, f3]);
    assert [f1, f2, f3][0] == f1;
  }

  /** A passing pass between failures clears the counter: two failures, a
      success and two more failures leave the entry in place with a count
      of 2. */
  lemma PassResetsCount(p: Proxy, f1: Probe, f2: Probe, ok: Probe, f3: Probe, f4: Probe)
    requires p.fails == 0
    requires Failed(f1) && Failed(f2) && !Failed(ok) && Failed(f3) && Failed(f4)
    ensures History(p, [f1, f2, ok]).Some?
    ensures History(p, [f1, f2, ok]).value.fails == 0
    ensures History(p, [f1, f2, ok, f3, f4]).Some?
    ensures History(p, [f1, f2, ok, f3, f4]).value.fails == 2
  {
    var h := [f1, f2, ok, f3, f4];
    HistoryCountsFailures(p, h);
    HistoryCountsFailures(p, h[..3]);
    assert h[..3] == [f1, f2, ok];
    assert h[..4][..3] == h[..3];
    assert h[..4] == [f1, f2, ok, f3];
  }
}
