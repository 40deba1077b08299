/**
 * The detection side of crawler/crawler.go: latency bucketing, the
 * availability check of one proxy, the partition of a probed batch, the two
 * single-flight guards, the promotion pass (`detectNewProxy`) and the
 * re-verification pass (`RedetectAvailableProxy`).
 *
 * The network probe is an input: for every proxy of a batch a `Probe` says
 * what the GET through that proxy did and when detection finished. A pass is
 * one step; the goroutines, the five-slot semaphore, the sleeps and the
 * self-rescheduling recursion are not modelled.
 */
module Crawler {
  import opened GoInt
  import opened Wrappers
  import opened ProxyList

  /** Values of the single-flight flags; the zero value means "never ran". */
  const DetectRunning: int32 := 1
  const DetectStop: int32 := 2

  /** `time.Millisecond` as a `time.Duration` (nanoseconds). */
  const Millisecond: int := 1_000_000

  /** `speedDevides`: the latency thresholds, ascending. */
  const SpeedDivides: seq<int> := [750 * Millisecond, 1500 * Millisecond]

  /** The threshold loop of `analyze`, from index `i` on: the index of the
      first threshold above `d`, or the number of thresholds when there is
      none. */
  function FirstAbove(divs: seq<int>, d: int, i: nat): (r: nat)
    requires i <= |divs|
    ensures i <= r <= |divs|
    ensures forall j | i <= j < r :: divs[j] <= d
    ensures r < |divs| ==> d < divs[r]
    decreases |divs| - i
  {
    if i == |divs| then |divs|
    else if d < divs[i] then i
    else FirstAbove(divs, d, i + 1)
  }

  /** Against ascending thresholds, a longer duration never gets a smaller
      bucket. */
  lemma FirstAboveMonotone(divs: seq<int>, d1: int, d2: int)
    requires forall i, j | 0 <= i < j < |divs| :: divs[i] <= divs[j]
    requires d1 <= d2
    ensures FirstAbove(divs, d1, 0) <= FirstAbove(divs, d2, 0)
  {
  }

  /** The latency bucket of an elapsed `time.Duration`. */
  function SpeedBucket(d: int64): (r: int32)
    ensures 0 <= r <= 2
    ensures r == 0 <==> d as int < 750 * Millisecond
    ensures r == 1 <==> 750 * Millisecond <= d as int < 1500 * Millisecond
    ensures r == 2 <==> 1500 * Millisecond <= d as int
  {
    var i := FirstAbove(SpeedDivides, d as int, 0);
    assert SpeedDivides[0] == 750 * Millisecond && SpeedDivides[1] == 1500 * Millisecond;
    assert i == 0 ==> d as int < 750 * Millisecond;
    assert i == 1 ==> 750 * Millisecond <= d as int < 1500 * Millisecond;
    i as int32
  }

  /** Bucketing is monotone in the elapsed time. */
  lemma SpeedBucketMonotone(d1: int64, d2: int64)
    requires d1 <= d2
    ensures SpeedBucket(d1) <= SpeedBucket(d2)
  {
    FirstAboveMonotone(SpeedDivides, d1 as int, d2 as int);
  }

  /** What the probe GET through a proxy did. */
  datatype ProbeOutcome =
    | NoClient                               // no client could be built for the proxy
    | RequestFailed                          // the GET returned an error (timeouts included)
    | Responded(status: int, elapsed: int64) // a response arrived after `elapsed`

  /** One proxy's probe and the Unix second at which its detection ended. */
  datatype Probe = Probe(outcome: ProbeOutcome, detectedAt: int64)

  predicate IsSuccessStatus(status: int) {
    200 <= status < 400
  }

  /** A detection verdict together with the proxy as the detection left it. */
  datatype Analysis = Analysis(available: bool, proxy: Proxy)

  /** `analyze`: any response counts as available, but only a 2xx or 3xx
      response rewrites the speed bucket. */
  function Analyze(p: Proxy, outcome: ProbeOutcome): (r: Analysis)
    ensures r.available <==> outcome.Responded?
    ensures r.proxy == p.(speed := r.proxy.speed)
    ensures outcome.Responded? && IsSuccessStatus(outcome.status) ==>
              r.proxy.speed == SpeedBucket(outcome.elapsed)
    ensures !(outcome.Responded? && IsSuccessStatus(outcome.status)) ==> r.proxy == p
  {
    match outcome
    case NoClient => Analysis(false, p)
    case RequestFailed => Analysis(false, p)
    case Responded(status, elapsed) =>
      if status >= 200 && status < 400 then
        Analysis(true, p.(speed := FirstAbove(SpeedDivides, elapsed as int, 0) as int32))
      else
        Analysis(true, p)
  }

  /** The body of one detection goroutine: analyze, then stamp `DetectedAt`
      whatever the verdict. */
  function Detect(p: Proxy, probe: Probe): (r: Analysis)
    ensures r.available <==> probe.outcome.Responded?
    ensures r.proxy.detectedAt == probe.detectedAt
    ensures Id(r.proxy) == Id(p) && r.proxy.fails == p.fails && r.proxy.anonymous == p.anonymous
    ensures r.proxy.speed == Analyze(p, probe.outcome).proxy.speed
  {
    var a := Analyze(p, probe.outcome);
    a.(proxy := a.proxy.(detectedAt := probe.detectedAt))
  }

  /** Every proxy of a batch as its detection left it. */
  function Probed(list: seq<Proxy>, probes: seq<Probe>): (r: seq<Proxy>)
    requires |probes| == |list|
  {
    seq(|list|, i requires 0 <= i < |list| => Detect(list[i], probes[i]).proxy)
  }

  lemma ProbedLast(list: seq<Proxy>, probes: seq<Probe>)
    requires |probes| == |list| > 0
    ensures var n := |list| - 1;
      Probed(list, probes) == Probed(list[..n], probes[..n]) + [Detect(list[n], probes[n]).proxy]
    ensures forall i | 0 <= i < |list| - 1 ::
      list[..|list| - 1][i] == list[i] && probes[..|list| - 1][i] == probes[i]
  {
  }

  datatype Partition = Partition(available: seq<Proxy>, unavailable: seq<Proxy>)

  /** Every proxy of the batch whose verdict is `ok`, as detection left it,
      is in `out`. */
  ghost predicate Covers(list: seq<Proxy>, probes: seq<Probe>, out: seq<Proxy>, ok: bool)
    requires |probes| == |list|
  {
    forall i | 0 <= i < |list| && Detect(list[i], probes[i]).available == ok ::
      Detect(list[i], probes[i]).proxy in out
  }

  /** Every member of `out` is a proxy of the batch, as detection left it,
      whose verdict is `ok`. */
  ghost predicate Within(list: seq<Proxy>, probes: seq<Probe>, out: seq<Proxy>, ok: bool)
    requires |probes| == |list|
  {
    forall x | x in out :: exists i | 0 <= i < |list| :: Detect(list[i], probes[i]) == Analysis(ok, x)
  }

  /** `part` splits the detected batch exactly by verdict. */
  ghost predicate IsPartition(list: seq<Proxy>, probes: seq<Probe>, part: Partition)
    requires |probes| == |list|
  {
    && |part.available| + |part.unavailable| == |list|
    && multiset(part.available) + multiset(part.unavailable) == multiset(Probed(list, probes))
    && Covers(list, probes, part.available, true)
    && Covers(list, probes, part.unavailable, false)
    && Within(list, probes, part.available, true)
    && Within(list, probes, part.unavailable, false)
  }

  /** One goroutine's append: the verdict chooses the side. */
  function AppendResult(part: Partition, a: Analysis): Partition {
    if a.available then Partition(part.available + [a.proxy], part.unavailable)
    else Partition(part.available, part.unavailable + [a.proxy])
  }

  lemma CoversStep(list: seq<Proxy>, probes: seq<Probe>, out: seq<Proxy>, ok: bool)
    requires |probes| == |list| > 0
    requires Covers(list[..|list| - 1], probes[..|list| - 1], out, ok)
    ensures var a := Detect(list[|list| - 1], probes[|list| - 1]);
      Covers(list, probes, if a.available == ok then out + [a.proxy] else out, ok)
  {
    ProbedLast(list, probes);
  }

  lemma WithinStep(list: seq<Proxy>, probes: seq<Probe>, out: seq<Proxy>, ok: bool)
    requires |probes| == |list| > 0
    requires Within(list[..|list| - 1], probes[..|list| - 1], out, ok)
    ensures var a := Detect(list[|list| - 1], probes[|list| - 1]);
      Within(list, probes, if a.available == ok then out + [a.proxy] else out, ok)
  {
    var n := |list| - 1;
    ProbedLast(list, probes);
    var a := Detect(list[n], probes[n]);
    var out' := if a.available == ok then out + [a.proxy] else out;
    forall x | x in out'
      ensures exists i | 0 <= i < |list| :: Detect(list[i], probes[i]) == Analysis(ok, x)
    {
      if x in out {
        var i :| 0 <= i < n && Detect(list[..n][i], probes[..n][i]) == Analysis(ok, x);
        assert Detect(list[i], probes[i]) == Analysis(ok, x);
      } else {
        assert Detect(list[n], probes[n]) == Analysis(ok, x);
      }
    }
  }

  lemma PartitionStep(list: seq<Proxy>, probes: seq<Probe>, part: Partition)
    requires |probes| == |list| > 0
    requires IsPartition(list[..|list| - 1], probes[..|list| - 1], part)
    ensures IsPartition(list, probes, AppendResult(part, Detect(list[|list| - 1], probes[|list| - 1])))
  {
    var n := |list| - 1;
    ProbedLast(list, probes);
    CoversStep(list, probes, part.available, true);
    CoversStep(list, probes, part.unavailable, false);
    WithinStep(list, probes, part.available, true);
    WithinStep(list, probes, part.unavailable, false);
  }

  /** `detectProxyList`: detects every proxy once and splits the batch by
      verdict. The source collects results in completion order; the model
      keeps input order, which is one of the possible interleavings. */
  function DetectProxyList(list: seq<Proxy>, probes: seq<Probe>): (r: Partition)
    requires |probes| == |list|
    ensures IsPartition(list, probes, r)
    decreases |list|
  {
    if |list| == 0 then Partition([], [])
    else
      var n := |list| - 1;
      var part := DetectProxyList(list[..n], probes[..n]);
      PartitionStep(list, probes, part);
      AppendResult(part, Detect(list[n], probes[n]))
  }

  /** The crawler's state: the two proxy lists and the two single-flight
      flags. */
  datatype Crawler = Crawler(
    newProxyList: seq<Proxy>,
    availableProxyList: seq<Proxy>,
    newProxyDetectStatus: int32,
    availableProxyDetectStatus: int32)

  /** A crawler as constructed: empty lists, zero flags. */
  const Initial: Crawler := Crawler([], [], 0, 0)

  /** Both lists keep the no-duplicate invariant. */
  ghost predicate Valid(c: Crawler) {
    NoDup(c.newProxyList) && NoDup(c.availableProxyList)
  }

  /** `addNewProxy`, the listener registered with every adapter. */
  function AddNewProxy(c: Crawler, p: Proxy): (r: Crawler)
    ensures r == c.(newProxyList := r.newProxyList)
    ensures |c.newProxyList| <= |r.newProxyList|
    ensures r.newProxyList[..|c.newProxyList|] == c.newProxyList
    ensures Ids(r.newProxyList) == Ids(c.newProxyList) + {Id(p)}
    ensures Valid(c) ==> Valid(r)
  {
    assert Ids([p]) == {Id(p)} by {
      assert Id([p][0]) == Id(p);
    }
    c.(newProxyList := Add(c.newProxyList, [p]))
  }

  /** The adapter callbacks of one fetch, in emission order. */
  function Ingest(c: Crawler, found: seq<Proxy>): (r: Crawler)
    ensures r == c.(newProxyList := r.newProxyList)
    ensures |c.newProxyList| <= |r.newProxyList|
    ensures r.newProxyList[..|c.newProxyList|] == c.newProxyList
    ensures Ids(r.newProxyList) == Ids(c.newProxyList) + Ids(found)
    ensures Valid(c) ==> Valid(r)
    decreases |found|
  {
    if |found| == 0 then
      assert Ids(found) == {};
      c
    else
      var d := Ingest(c, found[..|found| - 1]);
      IngestStep(c, found, d);
      AddNewProxy(d, found[|found| - 1])
  }

  /** The inductive step of `Ingest`: what holds after all records but the
      last carries over to all of them. */
  lemma IngestStep(c: Crawler, found: seq<Proxy>, d: Crawler)
    requires |found| > 0
    requires d == c.(newProxyList := d.newProxyList)
    requires |c.newProxyList| <= |d.newProxyList| && d.newProxyList[..|c.newProxyList|] == c.newProxyList
    requires Ids(d.newProxyList) == Ids(c.newProxyList) + Ids(found[..|found| - 1])
    requires Valid(c) ==> Valid(d)
    ensures var r := AddNewProxy(d, found[|found| - 1]);
      && r == c.(newProxyList := r.newProxyList)
      && |c.newProxyList| <= |r.newProxyList| && r.newProxyList[..|c.newProxyList|] == c.newProxyList
      && Ids(r.newProxyList) == Ids(c.newProxyList) + Ids(found)
      && (Valid(c) ==> Valid(r))
  {
    var r := AddNewProxy(d, found[|found| - 1]);
    IdsLast(found);
    assert r.newProxyList[..|c.newProxyList|] == r.newProxyList[..|d.newProxyList|][..|c.newProxyList|];
  }

  /** Calling the listener once per record is `Add` of the whole batch. */
  lemma {:induction false} IngestIsAdd(c: Crawler, found: seq<Proxy>)
    ensures Ingest(c, found) == c.(newProxyList := Add(c.newProxyList, found))
    decreases |found|
  {
    if |found| > 0 {
      var n := |found| - 1;
      IngestIsAdd(c, found[..n]);
      var d := Add(c.newProxyList, found[..n]);
      assert [found[n]][..0] == [];
      assert Add(d, [found[n]]) == AddOne(d, found[n]);
      assert Add(c.newProxyList, found) == AddOne(d, found[n]);
    }
  }

  /** `atomic.SwapInt32(&flag, detectRunning)` and the test of the old value:
      the flag is running afterwards, and the pass proceeds unless it was
      running before. */
  datatype Swap = Swap(proceed: bool, status: int32)

  function TryAcquire(status: int32): (r: Swap)
    ensures r.status == DetectRunning
    ensures r.proceed <==> status != DetectRunning
  {
    Swap(status != DetectRunning, DetectRunning)
  }

  /** The guard as a two-state machine: the zero value and `detectStop`
      admit a pass, a pass in flight turns every further attempt away
      without a change, and the final store of `detectStop` admits the next. */
  lemma GuardIsSingleFlight(status: int32)
    ensures TryAcquire(0).proceed
    ensures TryAcquire(status).status == DetectRunning
    ensures TryAcquire(status).proceed <==> status != DetectRunning
    ensures !TryAcquire(TryAcquire(status).status).proceed
    ensures TryAcquire(TryAcquire(status).status).status == TryAcquire(status).status
    ensures TryAcquire(DetectStop).proceed
  {
  }

  /** The first half of `detectNewProxy`: the guard, then the drain of the
      new list into the batch to detect. */
  datatype Promotion = Promotion(started: bool, crawler: Crawler, batch: seq<Proxy>)

  function BeginDetectNewProxy(c: Crawler): (r: Promotion)
    ensures r.started <==> c.newProxyDetectStatus != DetectRunning
    ensures !r.started ==> r.crawler == c && r.batch == []
    ensures r.started ==> r.batch == c.newProxyList
    ensures r.started ==>
              r.crawler == c.(newProxyList := [], newProxyDetectStatus := DetectRunning)
  {
    var s := TryAcquire(c.newProxyDetectStatus);
    if !s.proceed then Promotion(false, c, [])
    else
      var d := Reset(c.newProxyList);
      Promotion(true, c.(newProxyList := d.rest, newProxyDetectStatus := s.status), d.batch)
  }

  /** The second half of `detectNewProxy`: detect the drained batch, add the
      available proxies to the available list, release the guard. */
  function EndDetectNewProxy(c: Crawler, batch: seq<Proxy>, probes: seq<Probe>): (r: Crawler)
    requires |probes| == |batch|
    ensures r.newProxyList == c.newProxyList
    ensures r.newProxyDetectStatus == DetectStop
    ensures r.availableProxyDetectStatus == c.availableProxyDetectStatus
    ensures |c.availableProxyList| <= |r.availableProxyList|
    ensures r.availableProxyList[..|c.availableProxyList|] == c.availableProxyList
    ensures forall i | |c.availableProxyList| <= i < |r.availableProxyList| ::
              r.availableProxyList[i] in DetectProxyList(batch, probes).available
    ensures Ids(r.availableProxyList)
            == Ids(c.availableProxyList) + Ids(DetectProxyList(batch, probes).available)
    ensures Valid(c) ==> Valid(r)
  {
    var part := DetectProxyList(batch, probes);
    c.(availableProxyList := Add(c.availableProxyList, part.available),
       newProxyDetectStatus := DetectStop)
  }

  /** `detectNewProxy`, one cycle. */
  function DetectNewProxy(c: Crawler, probes: seq<Probe>): (r: Crawler)
    requires |probes| == |c.newProxyList|
    ensures c.newProxyDetectStatus == DetectRunning ==> r == c
    ensures c.newProxyDetectStatus != DetectRunning ==>
              r.newProxyList == [] && r.newProxyDetectStatus == DetectStop
    ensures r.availableProxyDetectStatus == c.availableProxyDetectStatus
    ensures Valid(c) ==> Valid(r)
  {
    var b := BeginDetectNewProxy(c);
    if !b.started then b.crawler
    else EndDetectNewProxy(b.crawler, b.batch, probes)
  }

  /** The promotion step: the new list ends empty; the available list keeps
      its entries and gains exactly the identities of the drained proxies
      that passed; a drained proxy that failed is added to neither list. */
  lemma PromotionMovesSurvivors(c: Crawler, probes: seq<Probe>)
    requires Valid(c)
    requires |probes| == |c.newProxyList|
    requires c.newProxyDetectStatus != DetectRunning
    ensures var r := DetectNewProxy(c, probes);
      && r.newProxyList == []
      && r.availableProxyList[..|c.availableProxyList|] == c.availableProxyList
      && (forall i | 0 <= i < |c.newProxyList| && probes[i].outcome.Responded? ::
            Id(c.newProxyList[i]) in Ids(r.availableProxyList))
      && (forall i | 0 <= i < |c.newProxyList| && !probes[i].outcome.Responded? ::
            Id(c.newProxyList[i]) !in Ids(r.availableProxyList[|c.availableProxyList|..]))
  {
    var list := c.newProxyList;
    var r := DetectNewProxy(c, probes);
    var part := DetectProxyList(list, probes);
    var before := c.availableProxyList;
    var added := r.availableProxyList[|before|..];
    forall i | 0 <= i < |list| && probes[i].outcome.Responded?
      ensures Id(list[i]) in Ids(r.availableProxyList)
    {
      var x := Detect(list[i], probes[i]).proxy;
      var k :| 0 <= k < |part.available| && part.available[k] == x;
      assert Id(x) in Ids(part.available);
    }
    forall i | 0 <= i < |list| && !probes[i].outcome.Responded?
      ensures Id(list[i]) !in Ids(added)
    {
      forall k | 0 <= k < |added|
        ensures Id(added[k]) != Id(list[i])
      {
        assert added[k] == r.availableProxyList[|before| + k];
        var j :| 0 <= j < |list| && Detect(list[j], probes[j]) == Analysis(true, added[k]);
        assert j != i;
      }
    }
  }

  /** Single flight and drain isolation of the promotion pass: while a pass
      is in flight a second trigger is dropped without any change, and a
      proxy discovered meanwhile stays in the new list for the next pass
      instead of joining the batch being detected. */
  lemma PromotionIsSingleFlight(c: Crawler, p: Proxy, probes: seq<Probe>)
    requires c.newProxyDetectStatus != DetectRunning
    requires |probes| == |c.newProxyList|
    ensures var b := BeginDetectNewProxy(c);
      var during := AddNewProxy(b.crawler, p);
      && b.started
      && !BeginDetectNewProxy(during).started
      && BeginDetectNewProxy(during).crawler == during
      && b.batch == c.newProxyList
      && EndDetectNewProxy(during, b.batch, probes).newProxyList == [p]
      && EndDetectNewProxy(during, b.batch, probes).newProxyDetectStatus == DetectStop
  {
    var b := BeginDetectNewProxy(c);
    var during := AddNewProxy(b.crawler, p);
    AddToEmptyKeepsOrder([p]);
  }

  /** The effect of one re-verification pass on one entry: detection, then
      the failure counter is cleared on success and incremented (with
      `AddInt32` wrap-around) on failure. */
  function Reverify(p: Proxy, probe: Probe): (r: Analysis)
    ensures r.available <==> probe.outcome.Responded?
    ensures r.available ==> r.proxy.fails == 0
    ensures !r.available ==> r.proxy.fails == Inc32(p.fails)
    ensures Id(r.proxy) == Id(p) && r.proxy.detectedAt == probe.detectedAt
    ensures r.proxy.anonymous == p.anonymous
    ensures r.proxy.speed == Analyze(p, probe.outcome).proxy.speed
  {
    var a := Detect(p, probe);
    a.(proxy := a.proxy.(fails := if a.available then 0 else Inc32(a.proxy.fails)))
  }

  /** The eviction test: failed now, and the incremented counter reached 3. */
  predicate Evicted(a: Analysis) {
    !a.available && a.proxy.fails >= 3
  }

  /** The pool entries after the counter updates: the source writes them
      through the shared pointers, so the list sees them in place. */
  function Updated(list: seq<Proxy>, probes: seq<Probe>): (r: seq<Proxy>)
    requires |probes| == |list|
  {
    seq(|list|, i requires 0 <= i < |list| => Reverify(list[i], probes[i]).proxy)
  }

  /** `failProxyList`: from the unavailable part, every proxy whose counter
      reaches 3 once incremented. */
  function FailProxyList(unavailable: seq<Proxy>): (r: seq<Proxy>)
    ensures forall x | x in unavailable && Inc32(x.fails) >= 3 :: Id(x) in Ids(r)
    ensures forall y | y in r :: exists x | x in unavailable :: Id(x) == Id(y) && Inc32(x.fails) >= 3
    decreases |unavailable|
  {
    if |unavailable| == 0 then []
    else
      var n := |unavailable| - 1;
      var init := FailProxyList(unavailable[..n]);
      var x := unavailable[n];
      assert unavailable == unavailable[..n] + [x];
      var count := Inc32(x.fails);
      if count >= 3 then
        IdsSnoc(init, x.(fails := count));
        init + [x.(fails := count)]
      else init
  }

  /** The identities of the entries a pass evicts. */
  ghost function EvictedIds(list: seq<Proxy>, probes: seq<Probe>): set<Identity>
    requires |probes| == |list|
  {
    set i | 0 <= i < |list| && Evicted(Reverify(list[i], probes[i])) :: Id(list[i])
  }

  /** `RedetectAvailableProxy`, one pass: turned away while a pass runs;
      otherwise, on a duplicate-free list, the updated entries that are not
      evicted, in their order, with the flag released. */
  function RedetectAvailableProxy(c: Crawler, probes: seq<Probe>): (r: Crawler)
    requires |probes| == |c.availableProxyList|
    ensures c.availableProxyDetectStatus == DetectRunning ==> r == c
    ensures c.availableProxyDetectStatus != DetectRunning ==>
              r == c.(availableProxyList := r.availableProxyList, availableProxyDetectStatus := DetectStop)
    ensures Valid(c) && c.availableProxyDetectStatus != DetectRunning ==>
              r.availableProxyList
              == Without(Updated(c.availableProxyList, probes), EvictedIds(c.availableProxyList, probes))
  {
    var s := TryAcquire(c.availableProxyDetectStatus);
    if !s.proceed then c
    else
      var list := List(c.availableProxyList);
      var part := DetectProxyList(list, probes);
      var failList := FailProxyList(part.unavailable);
      assert NoDup(list) ==>
        Remove(Updated(list, probes), failList) == Without(Updated(list, probes), EvictedIds(list, probes)) by {
        if NoDup(list) {
          ReverifyPassInOrder(list, probes);
        }
      }
      c.(availableProxyList := Remove(Updated(list, probes), failList),
         availableProxyDetectStatus := DetectStop)
  }

  /** Every identity on the fail list is that of an evicted entry. */
  lemma FailListSound(list: seq<Proxy>, probes: seq<Probe>, id: Identity)
    requires |probes| == |list|
    requires id in Ids(FailProxyList(DetectProxyList(list, probes).unavailable))
    ensures exists i | 0 <= i < |list| :: Id(list[i]) == id && Evicted(Reverify(list[i], probes[i]))
  {
    var part := DetectProxyList(list, probes);
    var fl := FailProxyList(part.unavailable);
    var k :| 0 <= k < |fl| && Id(fl[k]) == id;
    var x :| x in part.unavailable && Id(x) == Id(fl[k]) && Inc32(x.fails) >= 3;
    var i :| 0 <= i < |list| && Detect(list[i], probes[i]) == Analysis(false, x);
    assert Evicted(Reverify(list[i], probes[i]));
  }

  /** The identity of every evicted entry is on the fail list. */
  lemma FailListComplete(list: seq<Proxy>, probes: seq<Probe>, i: int)
    requires |probes| == |list|
    requires 0 <= i < |list| && Evicted(Reverify(list[i], probes[i]))
    ensures Id(list[i]) in Ids(FailProxyList(DetectProxyList(list, probes).unavailable))
  {
    var part := DetectProxyList(list, probes);
    var x := Detect(list[i], probes[i]).proxy;
    assert x in part.unavailable;
  }

  /** The identities the pass removes are exactly those of the entries that
      failed with the incremented counter at 3 or more. */
  lemma FailListIds(list: seq<Proxy>, probes: seq<Probe>)
    requires |probes| == |list|
    ensures var fl := FailProxyList(DetectProxyList(list, probes).unavailable);
      forall id :: id in Ids(fl) <==>
        exists i | 0 <= i < |list| :: Id(list[i]) == id && Evicted(Reverify(list[i], probes[i]))
  {
    var fl := FailProxyList(DetectProxyList(list, probes).unavailable);
    forall id
      ensures id in Ids(fl) <==>
        exists i | 0 <= i < |list| :: Id(list[i]) == id && Evicted(Reverify(list[i], probes[i]))
    {
      if id in Ids(fl) {
        FailListSound(list, probes, id);
      }
      if exists i | 0 <= i < |list| :: Id(list[i]) == id && Evicted(Reverify(list[i], probes[i])) {
        var i :| 0 <= i < |list| && Id(list[i]) == id && Evicted(Reverify(list[i], probes[i]));
        FailListComplete(list, probes, i);
      }
    }
  }

  /** The fail list names exactly the evicted identities. */
  lemma FailListIsEvicted(list: seq<Proxy>, probes: seq<Probe>)
    requires |probes| == |list|
    ensures Ids(FailProxyList(DetectProxyList(list, probes).unavailable)) == EvictedIds(list, probes)
  {
    FailListIds(list, probes);
  }

  /** On a duplicate-free list the pass keeps the updated entries that are
      not evicted, in their order. */
  lemma ReverifyPassInOrder(list: seq<Proxy>, probes: seq<Probe>)
    requires NoDup(list)
    requires |probes| == |list|
    ensures Remove(Updated(list, probes), FailProxyList(DetectProxyList(list, probes).unavailable))
            == Without(Updated(list, probes), EvictedIds(list, probes))
  {
    UpdatedKeepsIds(list, probes);
    FailListIsEvicted(list, probes);
  }

  /** `Updated` changes no identity, so it keeps the invariant. */
  lemma UpdatedKeepsIds(list: seq<Proxy>, probes: seq<Probe>)
    requires |probes| == |list|
    ensures forall i | 0 <= i < |list| :: Id(Updated(list, probes)[i]) == Id(list[i])
    ensures NoDup(list) ==> NoDup(Updated(list, probes))
  {
  }

  /** The entries left by the pass are entries of the updated list. */
  lemma ReverifyPassAddsNothing(list: seq<Proxy>, probes: seq<Probe>, r: seq<Proxy>)
    requires |probes| == |list|
    requires multiset(r) <= multiset(Updated(list, probes))
    ensures forall x | x in r :: exists i | 0 <= i < |list| :: x == Reverify(list[i], probes[i]).proxy
  {
    var up := Updated(list, probes);
    forall x | x in r
      ensures exists i | 0 <= i < |list| :: x == Reverify(list[i], probes[i]).proxy
    {
      assert x in multiset(up);
      var i :| 0 <= i < |up| && up[i] == x;
    }
  }

  /** Filtering a duplicate-free list keeps an entry exactly when its
      identity is not filtered out. */
  lemma WithoutKeepsEntry(s: seq<Proxy>, ids: set<Identity>, x: Proxy)
    requires NoDup(s) && x in s
    ensures x in Without(s, ids) <==> Id(x) !in ids
  {
    var w := Without(s, ids);
    WithoutProperties(s, ids);
    assert Id(x) in Ids(s);
    if Id(x) !in ids {
      assert Id(x) in Ids(w);
      var j :| 0 <= j < |w| && Id(w[j]) == Id(x);
      assert w[j] in multiset(s);
      OnlyEntryWithId(s, x, w[j]);
    }
    if x in w {
      var j :| 0 <= j < |w| && w[j] == x;
      assert Id(x) in Ids(w);
    }
  }

  /** On a duplicate-free list, entry `i`'s identity is evicted exactly when
      entry `i` itself is. */
  lemma EvictedIdOfEntry(list: seq<Proxy>, probes: seq<Probe>, i: int)
    requires NoDup(list)
    requires |probes| == |list|
    requires 0 <= i < |list|
    ensures Id(list[i]) in EvictedIds(list, probes) <==> Evicted(Reverify(list[i], probes[i]))
  {
    if Id(list[i]) in EvictedIds(list, probes) {
      var j :| 0 <= j < |list| && Evicted(Reverify(list[j], probes[j])) && Id(list[j]) == Id(list[i]);
      assert j == i;
    }
  }

  /** Entry `i` survives the pass exactly when it is not evicted. */
  lemma ReverifyKeepsEntry(list: seq<Proxy>, probes: seq<Probe>, i: int)
    requires NoDup(list)
    requires |probes| == |list|
    requires 0 <= i < |list|
    ensures var r := Remove(Updated(list, probes), FailProxyList(DetectProxyList(list, probes).unavailable));
      Reverify(list[i], probes[i]).proxy in r <==> !Evicted(Reverify(list[i], probes[i]))
  {
    var up := Updated(list, probes);
    ReverifyPassInOrder(list, probes);
    UpdatedKeepsIds(list, probes);
    assert up[i] in up;
    WithoutKeepsEntry(up, EvictedIds(list, probes), up[i]);
    EvictedIdOfEntry(list, probes, i);
  }

  /** An entry survives the pass exactly when it is not evicted. */
  lemma ReverifyPassKeeps(list: seq<Proxy>, probes: seq<Probe>)
    requires NoDup(list)
    requires |probes| == |list|
    ensures var r := Remove(Updated(list, probes), FailProxyList(DetectProxyList(list, probes).unavailable));
      forall i | 0 <= i < |list| ::
        Reverify(list[i], probes[i]).proxy in r <==> !Evicted(Reverify(list[i], probes[i]))
  {
    forall i | 0 <= i < |list| {
      ReverifyKeepsEntry(list, probes, i);
    }
  }

  /** The list after one re-verification pass, entry by entry. */
  lemma ReverifyPass(list: seq<Proxy>, probes: seq<Probe>)
    requires NoDup(list)
    requires |probes| == |list|
    ensures var r := Remove(Updated(list, probes), FailProxyList(DetectProxyList(list, probes).unavailable));
      && NoDup(r)
      && |r| <= |list|
      && (forall x | x in r :: exists i | 0 <= i < |list| :: x == Reverify(list[i], probes[i]).proxy)
      && (forall i | 0 <= i < |list| ::
            Reverify(list[i], probes[i]).proxy in r <==> !Evicted(Reverify(list[i], probes[i])))
      && r == Without(Updated(list, probes), EvictedIds(list, probes))
  {
    ReverifyPassInOrder(list, probes);
    var part := DetectProxyList(list, probes);
    var fl := FailProxyList(part.unavailable);
    var up := Updated(list, probes);
    var r := Remove(up, fl);
    UpdatedKeepsIds(list, probes);
    FailListIds(list, probes);
    RemoveDeletesExactly(up, fl);
    ReverifyPassAddsNothing(list, probes, r);
    ReverifyPassKeeps(list, probes);
  }

  /** The re-verification step, entry by entry: on a duplicate-free list,
      the entry of every passing proxy stays with its counter cleared, the
      entry of every failing proxy stays with its counter incremented unless
      that counter reached 3, in which case it is removed; nothing is added
      and the flag ends at `detectStop`. A pass attempted while one is in
      flight changes nothing. */
  lemma RedetectEffects(c: Crawler, probes: seq<Probe>)
    requires Valid(c)
    requires |probes| == |c.availableProxyList|
    ensures c.availableProxyDetectStatus == DetectRunning ==> RedetectAvailableProxy(c, probes) == c
    ensures var r := RedetectAvailableProxy(c, probes);
      var list := c.availableProxyList;
      && Valid(r)
      && r.newProxyList == c.newProxyList
      && r.newProxyDetectStatus == c.newProxyDetectStatus
      && (c.availableProxyDetectStatus != DetectRunning ==>
           && r.availableProxyDetectStatus == DetectStop
           && |r.availableProxyList| <= |list|
           && (forall x | x in r.availableProxyList ::
                 exists i | 0 <= i < |list| :: x == Reverify(list[i], probes[i]).proxy)
           && (forall i | 0 <= i < |list| ::
                 Reverify(list[i], probes[i]).proxy in r.availableProxyList
                 <==> !Evicted(Reverify(list[i], probes[i])))
           && r.availableProxyList == Without(Updated(list, probes), EvictedIds(list, probes)))
  {
    if c.availableProxyDetectStatus != DetectRunning {
      ReverifyPass(c.availableProxyList, probes);
    }
  }
}
