/**
 * The proxy list of crawler/proxylist.go: an ordered collection of proxy
 * records in which no two entries share the identity (IP, Port, Category).
 * The list is a value (`seq<Proxy>`); every operation returns the new
 * contents instead of mutating shared state under a lock.
 */
module ProxyList {
  import opened GoInt
  import opened Wrappers

  /** A proxy server. `speed` is the latency bucket written by detection,
      `fails` the number of consecutive failed re-verifications, and
      `detectedAt` the Unix second of the last detection. */
  datatype Proxy = Proxy(
    detectedAt: int64,
    ip: string,
    port: string,
    category: string,
    anonymous: bool,
    speed: int32,
    fails: int32)

  /** The three fields the list compares; speed, fails, anonymity and the
      detection time play no part in identity. */
  datatype Identity = Identity(ip: string, port: string, category: string)

  function Id(p: Proxy): Identity {
    Identity(p.ip, p.port, p.category)
  }

  ghost function Ids(s: seq<Proxy>): set<Identity> {
    set i | 0 <= i < |s| :: Id(s[i])
  }

  /** The list's central invariant: no two entries share an identity. */
  ghost predicate NoDup(s: seq<Proxy>) {
    forall i, j | 0 <= i < j < |s| :: Id(s[i]) != Id(s[j])
  }

  lemma IdsConcat(a: seq<Proxy>, b: seq<Proxy>)
    ensures Ids(a + b) == Ids(a) + Ids(b)
  {
    var ab := a + b;
    forall x | x in Ids(a) + Ids(b)
      ensures x in Ids(ab)
    {
      if x in Ids(a) {
        var i :| 0 <= i < |a| && Id(a[i]) == x;
        assert ab[i] == a[i];
      } else {
        var i :| 0 <= i < |b| && Id(b[i]) == x;
        assert ab[|a| + i] == b[i];
      }
    }
  }

  lemma IdsSnoc(s: seq<Proxy>, x: Proxy)
    ensures Ids(s + [x]) == Ids(s) + {Id(x)}
  {
    IdsConcat(s, [x]);
    assert Id([x][0]) == Id(x);
  }

  lemma IdsLast(s: seq<Proxy>)
    requires |s| > 0
    ensures Ids(s) == Ids(s[..|s| - 1]) + {Id(s[|s| - 1])}
  {
    assert s == s[..|s| - 1] + [s[|s| - 1]];
    IdsSnoc(s[..|s| - 1], s[|s| - 1]);
  }

  /** `indexOf`: the first index whose entry has the identity of `p`, or -1. */
  function IndexOf(data: seq<Proxy>, p: Proxy): (r: int)
    ensures -1 <= r < |data|
    ensures 0 <= r ==> Id(data[r]) == Id(p)
    ensures 0 <= r ==> forall j | 0 <= j < r :: Id(data[j]) != Id(p)
    ensures r == -1 <==> forall j | 0 <= j < |data| :: Id(data[j]) != Id(p)
    decreases |data|
  {
    if |data| == 0 then -1
    else if data[0].ip == p.ip && data[0].port == p.port && data[0].category == p.category then 0
    else
      var k := IndexOf(data[1..], p);
      if k == -1 then -1 else k + 1
  }

  /** `Exists`: an entry with the identity of `p` is present. */
  function Exists(data: seq<Proxy>, p: Proxy): (r: bool)
    ensures r <==> Id(p) in Ids(data)
  {
    IndexOf(data, p) != -1
  }

  /** One iteration of the loop in `Add`. */
  function AddOne(data: seq<Proxy>, p: Proxy): (r: seq<Proxy>)
    ensures Id(p) in Ids(data) ==> r == data
    ensures Id(p) !in Ids(data) ==> r == data + [p]
  {
    if IndexOf(data, p) != -1 then data else data + [p]
  }

  lemma AppendFreshKeepsNoDup(data: seq<Proxy>, p: Proxy)
    requires NoDup(data)
    requires Id(p) !in Ids(data)
    ensures NoDup(data + [p])
  {
    var s := data + [p];
    forall i, j | 0 <= i < j < |s|
      ensures Id(s[i]) != Id(s[j])
    {
      if j == |data| {
        assert s[i] == data[i];
        assert Id(data[i]) in Ids(data);
      }
    }
  }

  /** The inductive step of `Add`: what holds of `d`, the result for all
      candidates but the last, carries over to the result for all of them. */
  lemma AddStep(data: seq<Proxy>, list: seq<Proxy>, d: seq<Proxy>)
    requires |list| > 0
    requires |data| <= |d| && d[..|data|] == data
    requires forall i | |data| <= i < |d| :: d[i] in list[..|list| - 1]
    requires Ids(d) == Ids(data) + Ids(list[..|list| - 1])
    requires NoDup(data) ==> NoDup(d)
    ensures var r := AddOne(d, list[|list| - 1]);
      && |data| <= |r| && r[..|data|] == data
      && (forall i | |data| <= i < |r| :: r[i] in list)
      && Ids(r) == Ids(data) + Ids(list)
      && (NoDup(data) ==> NoDup(r))
  {
    var init, p := list[..|list| - 1], list[|list| - 1];
    IdsLast(list);
    IdsSnoc(d, p);
    assert forall x | x in init :: x in list;
    if NoDup(d) && Id(p) !in Ids(d) {
      AppendFreshKeepsNoDup(d, p);
    }
  }

  /** `Add`: appends, in argument order, every candidate whose identity is
      not yet present, including earlier candidates of the same call. */
  function Add(data: seq<Proxy>, list: seq<Proxy>): (r: seq<Proxy>)
    ensures |data| <= |r| && r[..|data|] == data
    ensures forall i | |data| <= i < |r| :: r[i] in list
    ensures Ids(r) == Ids(data) + Ids(list)
    ensures NoDup(data) ==> NoDup(r)
    decreases |list|
  {
    if |list| == 0 then data
    else
      var d := Add(data, list[..|list| - 1]);
      AddStep(data, list, d);
      AddOne(d, list[|list| - 1])
  }

  /** Candidate `i` is the first of its identity in `list` and absent from `data`. */
  ghost predicate FirstNew(data: seq<Proxy>, list: seq<Proxy>, i: int)
    requires 0 <= i < |list|
  {
    Id(list[i]) !in Ids(data) && forall j | 0 <= j < i :: Id(list[j]) != Id(list[i])
  }

  /** The candidates `Add` is meant to keep: the first occurrence of each
      identity absent from `data`, in argument order. */
  ghost function Fresh(data: seq<Proxy>, list: seq<Proxy>): seq<Proxy>
    decreases |list|
  {
    if |list| == 0 then []
    else
      Fresh(data, list[..|list| - 1])
      + (if FirstNew(data, list, |list| - 1) then [list[|list| - 1]] else [])
  }

  /** `Add` and `Fresh` unfolded once at the last candidate. */
  lemma AddFreshLast(data: seq<Proxy>, list: seq<Proxy>)
    requires |list| > 0
    ensures Add(data, list) == AddOne(Add(data, list[..|list| - 1]), list[|list| - 1])
    ensures Fresh(data, list) == Fresh(data, list[..|list| - 1])
              + (if FirstNew(data, list, |list| - 1) then [list[|list| - 1]] else [])
  {
  }

  /** The last candidate is kept exactly when it is the first of its
      identity and absent from `data`. */
  lemma FirstNewLast(data: seq<Proxy>, list: seq<Proxy>)
    requires |list| > 0
    ensures FirstNew(data, list, |list| - 1) <==>
              Id(list[|list| - 1]) !in Ids(data) + Ids(list[..|list| - 1])
  {
    var init, p := list[..|list| - 1], list[|list| - 1];
    if Id(p) in Ids(init) {
      var j :| 0 <= j < |init| && Id(init[j]) == Id(p);
      assert list[j] == init[j];
    } else {
      forall j | 0 <= j < |init|
        ensures Id(list[j]) != Id(p)
      {
        assert list[j] == init[j];
        assert Id(init[j]) in Ids(init);
      }
    }
  }

  /** `Add` keeps the existing entries untouched and in place, and appends
      exactly the fresh candidates. */
  lemma {:induction false} AddAppendsFresh(data: seq<Proxy>, list: seq<Proxy>)
    ensures Add(data, list) == data + Fresh(data, list)
    decreases |list|
  {
    if |list| > 0 {
      var init := list[..|list| - 1];
      AddAppendsFresh(data, init);
      AddFreshLast(data, list);
      FirstNewLast(data, list);
    }
  }

  /** Adding candidates whose identities are all present changes nothing. */
  lemma {:induction false} AddPresentIsNoop(data: seq<Proxy>, list: seq<Proxy>)
    requires Ids(list) <= Ids(data)
    ensures Add(data, list) == data
    decreases |list|
  {
    if |list| > 0 {
      IdsLast(list);
      AddPresentIsNoop(data, list[..|list| - 1]);
    }
  }

  /** Adding a duplicate-free batch to an empty list yields the batch itself,
      in insertion order, and `Size` is its length. */
  lemma {:induction false} AddToEmptyKeepsOrder(list: seq<Proxy>)
    requires NoDup(list)
    ensures List(Add([], list)) == list
    ensures Size(Add([], list)) == |list|
    decreases |list|
  {
    if |list| > 0 {
      var init, p := list[..|list| - 1], list[|list| - 1];
      NoDupInit(list);
      AddToEmptyKeepsOrder(init);
      assert Add([], list) == AddOne(init, p);
      assert list == init + [p];
    }
  }

  /** The prefix of a duplicate-free sequence is duplicate-free. */
  lemma NoDupInit(s: seq<Proxy>)
    requires |s| > 0 && NoDup(s)
    ensures NoDup(s[..|s| - 1])
    ensures Id(s[|s| - 1]) !in Ids(s[..|s| - 1])
  {
    var init := s[..|s| - 1];
    forall i, j | 0 <= i < j < |init|
      ensures Id(init[i]) != Id(init[j])
    {
      assert init[i] == s[i] && init[j] == s[j];
    }
    forall j | 0 <= j < |init|
      ensures Id(init[j]) != Id(s[|s| - 1])
    {
      assert s[j] == init[j];
    }
  }

  /** The inductive step of `Without`: what holds of the filtered prefix `w`
      carries over to the filtered whole. */
  lemma WithoutStep(s: seq<Proxy>, ids: set<Identity>, w: seq<Proxy>)
    requires |s| > 0
    requires |w| <= |s| - 1 && multiset(w) <= multiset(s[..|s| - 1])
    requires Ids(w) == Ids(s[..|s| - 1]) - ids
    requires NoDup(s[..|s| - 1]) ==> NoDup(w)
    ensures var r := if Id(s[|s| - 1]) in ids then w else w + [s[|s| - 1]];
      && |r| <= |s| && multiset(r) <= multiset(s)
      && Ids(r) == Ids(s) - ids
      && (NoDup(s) ==> NoDup(r))
  {
    var init, x := s[..|s| - 1], s[|s| - 1];
    assert s == init + [x];
    IdsLast(s);
    if NoDup(s) {
      NoDupInit(s);
    }
    if Id(x) !in ids {
      IdsSnoc(w, x);
      if NoDup(s) {
        AppendFreshKeepsNoDup(w, x);
      }
    }
  }

  /** The entries of `s` whose identity is not in `ids`, in their order. */
  ghost function Without(s: seq<Proxy>, ids: set<Identity>): seq<Proxy>
    decreases |s|
  {
    if |s| == 0 then []
    else
      var w := Without(s[..|s| - 1], ids);
      if Id(s[|s| - 1]) in ids then w else w + [s[|s| - 1]]
  }

  /** Filtering keeps a sub-multiset, removes exactly the identities in
      `ids` and keeps the no-duplicate invariant. */
  lemma {:induction false} WithoutProperties(s: seq<Proxy>, ids: set<Identity>)
    ensures |Without(s, ids)| <= |s|
    ensures multiset(Without(s, ids)) <= multiset(s)
    ensures Ids(Without(s, ids)) == Ids(s) - ids
    ensures NoDup(s) ==> NoDup(Without(s, ids))
    decreases |s|
  {
    if |s| > 0 {
      WithoutProperties(s[..|s| - 1], ids);
      WithoutStep(s, ids, Without(s[..|s| - 1], ids));
    }
  }

  lemma {:induction false} WithoutConcat(a: seq<Proxy>, b: seq<Proxy>, ids: set<Identity>)
    ensures Without(a + b, ids) == Without(a, ids) + Without(b, ids)
    decreases |b|
  {
    if |b| == 0 {
      assert a + b == a;
    } else {
      var init := b[..|b| - 1];
      assert (a + b)[..|a + b| - 1] == a + init;
      WithoutConcat(a, init, ids);
    }
  }

  /** `Without` unfolded once at the last entry. */
  lemma WithoutLast(s: seq<Proxy>, ids: set<Identity>)
    requires |s| > 0
    ensures Without(s, ids) == Without(s[..|s| - 1], ids) + (if Id(s[|s| - 1]) in ids then [] else [s[|s| - 1]])
  {
  }

  lemma {:induction false} WithoutNothing(s: seq<Proxy>, ids: set<Identity>)
    requires Ids(s) !! ids
    ensures Without(s, ids) == s
    decreases |s|
  {
    if |s| > 0 {
      var init, x := s[..|s| - 1], s[|s| - 1];
      assert Ids(init) !! ids && Id(x) !in ids by {
        IdsLast(s);
      }
      WithoutNothing(init, ids);
      WithoutLast(s, ids);
      assert s == init + [x];
    }
  }

  lemma {:induction false} WithoutTwice(s: seq<Proxy>, a: set<Identity>, b: set<Identity>)
    ensures Without(Without(s, a), b) == Without(s, a + b)
    decreases |s|
  {
    if |s| > 0 {
      var init := s[..|s| - 1];
      var x := s[|s| - 1];
      WithoutTwice(init, a, b);
      if Id(x) !in a {
        var w := Without(init, a);
        assert (w + [x])[..|w + [x]| - 1] == w;
      }
    }
  }

  /** Deleting the first entry with a given identity from a duplicate-free
      list is filtering that identity out. */
  lemma DeleteFirstMatch(data: seq<Proxy>, p: Proxy, k: int)
    requires NoDup(data)
    requires 0 <= k < |data| && Id(data[k]) == Id(p)
    ensures data[..k] + data[k + 1..] == Without(data, {Id(p)})
  {
    var a, b := data[..k], data[k + 1..];
    assert data == a + [data[k]] + b;
    forall j | 0 <= j < |a| ensures Id(a[j]) != Id(p) {
      assert a[j] == data[j];
    }
    forall j | 0 <= j < |b| ensures Id(b[j]) != Id(p) {
      assert b[j] == data[k + 1 + j];
    }
    WithoutNothing(a, {Id(p)});
    WithoutNothing(b, {Id(p)});
    WithoutConcat(a + [data[k]], b, {Id(p)});
    WithoutConcat(a, [data[k]], {Id(p)});
    assert [data[k]][..0] == [];
  }

  lemma DeleteAtShrinks(data: seq<Proxy>, k: int)
    requires 0 <= k < |data|
    ensures |data[..k] + data[k + 1..]| == |data| - 1
    ensures multiset(data[..k] + data[k + 1..]) <= multiset(data)
  {
    assert data == data[..k] + [data[k]] + data[k + 1..];
  }

  /** One iteration of the loop in `Remove`: the first entry with the
      identity of `p` is deleted, the others keep their order. */
  function RemoveOne(data: seq<Proxy>, p: Proxy): (r: seq<Proxy>)
    ensures Id(p) !in Ids(data) ==> r == data
    ensures Id(p) in Ids(data) ==>
      exists k | 0 <= k < |data| ::
        && Id(data[k]) == Id(p)
        && (forall j | 0 <= j < k :: Id(data[j]) != Id(p))
        && r == data[..k] + data[k + 1..]
    ensures Id(p) in Ids(data) ==> |r| == |data| - 1
    ensures multiset(r) <= multiset(data)
    ensures NoDup(data) ==> r == Without(data, {Id(p)})
  {
    var k := IndexOf(data, p);
    if k == -1 then
      assert Ids(data) !! {Id(p)};
      WithoutNothing(data, {Id(p)});
      data
    else
      DeleteAtShrinks(data, k);
      assert NoDup(data) ==> data[..k] + data[k + 1..] == Without(data, {Id(p)}) by {
        if NoDup(data) {
          DeleteFirstMatch(data, p, k);
        }
      }
      data[..k] + data[k + 1..]
  }

  /** The inductive step of `Remove`: what holds of `d`, the result for all
      candidates but the last, carries over to the result for all of them. */
  lemma RemoveStep(data: seq<Proxy>, list: seq<Proxy>, d: seq<Proxy>)
    requires |list| > 0
    requires |d| <= |data| && multiset(d) <= multiset(data)
    requires Ids(list[..|list| - 1]) !! Ids(data) ==> d == data
    requires NoDup(data) ==> d == Without(data, Ids(list[..|list| - 1]))
    ensures var r := RemoveOne(d, list[|list| - 1]);
      && |r| <= |data| && multiset(r) <= multiset(data)
      && (Ids(list) !! Ids(data) ==> r == data)
      && (NoDup(data) ==> r == Without(data, Ids(list)))
  {
    var init, p := list[..|list| - 1], list[|list| - 1];
    IdsLast(list);
    if NoDup(data) {
      WithoutProperties(data, Ids(init));
      WithoutTwice(data, Ids(init), {Id(p)});
    }
  }

  /** `Remove`: for each candidate in turn, deletes the first entry with its
      identity; absent candidates, an empty argument list and an empty list
      are no-ops. */
  function Remove(data: seq<Proxy>, list: seq<Proxy>): (r: seq<Proxy>)
    ensures |r| <= |data|
    ensures multiset(r) <= multiset(data)
    ensures Ids(list) !! Ids(data) ==> r == data
    ensures NoDup(data) ==> r == Without(data, Ids(list))
    decreases |list|
  {
    if |list| == 0 || |data| == 0 then
      assert Ids(data) !! Ids(list) by {
        if |list| == 0 {
          assert Ids(list) == {};
        } else {
          assert Ids(data) == {};
        }
      }
      WithoutNothing(data, Ids(list));
      data
    else
      var d := Remove(data, list[..|list| - 1]);
      RemoveStep(data, list, d);
      RemoveOne(d, list[|list| - 1])
  }

  /** `Remove` unfolded once at the last candidate, on any list. */
  lemma RemoveLast(data: seq<Proxy>, list: seq<Proxy>)
    requires |list| > 0
    ensures Remove(data, list) == RemoveOne(Remove(data, list[..|list| - 1]), list[|list| - 1])
  {
    if |data| == 0 {
      assert Ids(data) == {};
      assert |Remove(data, list[..|list| - 1])| == 0;
    }
  }

  /** No candidates leave any list unchanged. */
  lemma RemoveNone(data: seq<Proxy>, list: seq<Proxy>)
    requires |list| == 0
    ensures Remove(data, list) == data
  {
    assert Ids(list) == {};
  }

  /** A single candidate: `Remove` is one `RemoveOne`. */
  lemma RemoveFoldOne(data: seq<Proxy>, list: seq<Proxy>)
    requires |list| == 1
    ensures Remove(data, list) == Remove(RemoveOne(data, list[0]), list[1..])
  {
    RemoveLast(data, list);
    RemoveNone(data, list[..0]);
    RemoveNone(RemoveOne(data, list[0]), list[1..]);
  }

  /** Dropping the first and the last element commute. */
  lemma SliceShift<T>(s: seq<T>)
    requires |s| > 1
    ensures s[1..][..|s| - 2] == s[..|s| - 1][1..]
    ensures s[1..][|s| - 2] == s[|s| - 1]
  {
  }

  /** `Remove` takes the candidates front to back, as the source's loop
      does: the first candidate's deletion happens first, and the remaining
      candidates act on what it leaves. With the exact first-match deletion
      of `RemoveOne` this pins the result on any list, duplicates included. */
  lemma {:induction false} RemoveFoldsLeft(data: seq<Proxy>, list: seq<Proxy>)
    requires |list| > 0
    ensures Remove(data, list) == Remove(RemoveOne(data, list[0]), list[1..])
    decreases |list|
  {
    if |list| == 1 {
      RemoveFoldOne(data, list);
    } else {
      var init := list[..|list| - 1];
      RemoveFoldsLeft(data, init);
      assert init[0] == list[0];
      RemoveLast(data, list);
      SliceShift(list);
      RemoveLast(RemoveOne(data, list[0]), list[1..]);
    }
  }

  /** In a duplicate-free list an entry is the only one with its identity. */
  lemma OnlyEntryWithId(s: seq<Proxy>, x: Proxy, y: Proxy)
    requires NoDup(s) && x in s && y in s && Id(x) == Id(y)
    ensures x == y
  {
    var i :| 0 <= i < |s| && s[i] == x;
    var j :| 0 <= j < |s| && s[j] == y;
    assert i == j;
  }

  /** `Remove` on a duplicate-free list deletes exactly the entries whose
      identity is among the candidates and keeps the invariant. */
  lemma RemoveDeletesExactly(data: seq<Proxy>, list: seq<Proxy>)
    requires NoDup(data)
    ensures NoDup(Remove(data, list))
    ensures Ids(Remove(data, list)) == Ids(data) - Ids(list)
    ensures forall x | x in data :: x in Remove(data, list) <==> Id(x) !in Ids(list)
  {
    var r := Remove(data, list);
    WithoutProperties(data, Ids(list));
    forall x | x in data
      ensures x in r <==> Id(x) !in Ids(list)
    {
      var i :| 0 <= i < |data| && data[i] == x;
      if Id(x) !in Ids(list) {
        assert Id(x) in Ids(r);
        var j :| 0 <= j < |r| && Id(r[j]) == Id(x);
        assert r[j] in multiset(data);
        OnlyEntryWithId(data, x, r[j]);
      }
      if x in r {
        var j :| 0 <= j < |r| && r[j] == x;
        assert Id(x) in Ids(r);
      }
    }
  }

  /** `List`: the entries in insertion order (a value, not an alias). */
  function List(data: seq<Proxy>): (r: seq<Proxy>)
    ensures r == data
  {
    data
  }

  /** `Size`: the number of entries. */
  function Size(data: seq<Proxy>): (r: nat)
    ensures r == |data|
  {
    |data|
  }

  /** The result of `Reset`: the prior contents and the list afterwards. */
  datatype Drained = Drained(batch: seq<Proxy>, rest: seq<Proxy>)

  /** `Reset`: hands back exactly the prior contents and empties the list. */
  function Reset(data: seq<Proxy>): (r: Drained)
    ensures r.batch == List(data) && |r.batch| == Size(data)
    ensures Size(r.rest) == 0
  {
    Drained(data, [])
  }

  /** `Replace`: the contents become the argument, with no deduplication. */
  function Replace(data: seq<Proxy>, list: seq<Proxy>): (r: seq<Proxy>)
    ensures List(r) == list
    ensures NoDup(r) <==> NoDup(list)
  {
    list
  }

  /** `Replace` breaks the invariant whenever the argument repeats an identity. */
  lemma ReplaceDoesNotDeduplicate(data: seq<Proxy>, p: Proxy)
    ensures !NoDup(Replace(data, [p, p]))
    ensures Size(Replace(data, [p, p])) == 2
  {
    var r := Replace(data, [p, p]);
    assert Id(r[0]) == Id(r[1]);
  }

  /** The filter of `FindOne`: a negative speed and an empty category mean
      "any". */
  predicate Matches(p: Proxy, category: string, speed: int32) {
    (speed < 0 || p.speed == speed) && (category == "" || p.category == category)
  }

  /** The list `FindOne` chooses from: the whole list when neither filter is
      given, the matching entries otherwise. */
  function Candidates(data: seq<Proxy>, category: string, speed: int32): (r: seq<Proxy>)
    ensures forall x | x in r :: x in data && Matches(x, category, speed)
    ensures forall x | x in data && Matches(x, category, speed) :: x in r
    decreases |data|
  {
    if speed < 0 && category == "" then data
    else if |data| == 0 then []
    else
      var init := Candidates(data[..|data| - 1], category, speed);
      var x := data[|data| - 1];
      assert data == data[..|data| - 1] + [x];
      if speed >= 0 && x.speed != speed then init
      else if category != "" && x.category != category then init
      else init + [x]
  }

  /** `FindOne`: `pick` stands for the random draw `rand.Intn(size)`; any
      natural number is reduced to a valid index. */
  function FindOne(data: seq<Proxy>, category: string, speed: int32, pick: nat): (r: Option<Proxy>)
    ensures r.None? <==> forall x | x in data :: !Matches(x, category, speed)
    ensures r.Some? ==> r.value in data && Matches(r.value, category, speed)
  {
    var list := Candidates(data, category, speed);
    if |list| == 0 then None
    else
      assert list[pick % |list|] in list;
      Some(list[pick % |list|])
  }

  /** Every matching entry is a possible answer of `FindOne`: the choice is
      among all of them, not a fixed one. */
  lemma FindOneCanReturnAnyMatch(data: seq<Proxy>, category: string, speed: int32, p: Proxy)
    requires p in data && Matches(p, category, speed)
    ensures exists pick: nat :: FindOne(data, category, speed, pick) == Some(p)
  {
    var list := Candidates(data, category, speed);
    var i :| 0 <= i < |list| && list[i] == p;
    assert i % |list| == i;
    assert FindOne(data, category, speed, i) == Some(p);
  }

  /** The list's unit test: adding the same proxy twice keeps one entry;
      `FindOne` by its category and speed returns it whatever the draw;
      `Exists` tells the categories apart; `Reset` hands it back and empties
      the list; `Replace` installs the argument as given. */
  lemma UnitTestScenario(pick: nat, other: seq<Proxy>)
    ensures var p := Proxy(0, "127.0.0.1", "80", "http", false, 2, 0);
      var pl := Add(Add([], [p]), [p]);
      && FindOne(pl, "http", 2, pick) == Some(p)
      && !Exists(pl, Proxy(0, "127.0.0.1", "80", "https", false, 0, 0))
      && Exists(pl, Proxy(0, "127.0.0.1", "80", "http", false, 0, 0))
      && Size(pl) == 1 && List(pl)[0] == p
      && Reset(pl).batch[0] == p && Size(Reset(pl).rest) == 0
      && List(Replace(Add(Reset(pl).rest, [p]), other)) == other
  {
    var p := Proxy(0, "127.0.0.1", "80", "http", false, 2, 0);
    AddToEmptyKeepsOrder([p]);
    var pl := Add([], [p]);
    assert Ids([p]) <= Ids(pl);
    AddPresentIsNoop(pl, [p]);
    assert pl == [p];
    assert Candidates(pl, "http", 2) == [p] by {
      assert pl[..0] == [];
    }
  }
}
