/**
 Per-route request statistics. The map the object keeps is a fold of the records it has been
 given; what that fold means, that the order of the records does not matter, and what the two
 totals and the request timer add to it.
 */
module RequestStatistics {
  import opened Words

  type Route = string

  datatype RouteStats = RouteStats(requests: U64, errors: U64, totalUs: U64, minUs: U64, maxUs: U64)

  datatype Record = Record(route: Route, elapsedUs: U64, ok: bool)

  /** A default-constructed entry. */
  const Blank := RouteStats(0, 0, 0, W64 - 1, 0)

  function Bump(s: RouteStats, r: Record): RouteStats {
    RouteStats(
      Add64(s.requests, 1),
      if r.ok then s.errors else Add64(s.errors, 1),
      Add64(s.totalUs, r.elapsedUs),
      if r.elapsedUs < s.minUs then r.elapsedUs else s.minUs,
      if s.maxUs < r.elapsedUs then r.elapsedUs else s.maxUs)
  }

  function Entry(m: map<Route, RouteStats>, route: Route): RouteStats {
    if route in m then m[route] else Blank
  }

  function Noted(m: map<Route, RouteStats>, r: Record): map<Route, RouteStats> {
    m[r.route := Bump(Entry(m, r.route), r)]
  }

  ghost function Fold(log: seq<Record>): map<Route, RouteStats> {
    if log == [] then map[] else Noted(Fold(log[..|log| - 1]), log[|log| - 1])
  }

  // ---------- The order of the records does not matter ----------

  lemma BumpsCommute(s: RouteStats, a: Record, b: Record)
    ensures Bump(Bump(s, a), b) == Bump(Bump(s, b), a)
  {
  }

  lemma NotesCommute(m: map<Route, RouteStats>, a: Record, b: Record)
    ensures Noted(Noted(m, a), b) == Noted(Noted(m, b), a)
  {
    BumpsCommute(Entry(m, a.route), a, b);
  }

  lemma {:induction false} MoveToEnd(pre: seq<Record>, x: Record, post: seq<Record>)
    ensures Fold(pre + [x] + post) == Fold(pre + post + [x])
    decreases |post|
  {
    if post == [] {
      assert pre + [x] + post == pre + post + [x];
    } else {
      var n, y := |post| - 1, post[|post| - 1];
      assert (pre + [x] + post)[..|pre| + 1 + n] == pre + [x] + post[..n];
      assert (pre + post + [x])[..|pre| + 1 + n] == pre + post;
      assert (pre + post)[..|pre| + n] == pre + post[..n];
      assert (pre + post[..n] + [x])[..|pre| + n] == pre + post[..n];
      MoveToEnd(pre, x, post[..n]);
      NotesCommute(Fold(pre + post[..n]), x, y);
    }
  }

  lemma TakeOut(pre: seq<Record>, x: Record, post: seq<Record>)
    ensures multiset(pre + [x] + post) - multiset{x} == multiset(pre + post)
  {
    assert multiset(pre + [x] + post) == multiset(pre + post) + multiset{x};
  }

  /** The last record of one order, found in another. */
  lemma FindLast(a: seq<Record>, b: seq<Record>) returns (pre: seq<Record>, post: seq<Record>)
    requires a != [] && multiset(a) == multiset(b)
    ensures b == pre + [a[|a| - 1]] + post
    ensures multiset(a[..|a| - 1]) == multiset(pre + post)
  {
    var before, x := a[..|a| - 1], a[|a| - 1];
    assert a == before + [x] + [] && before + [] == before;
    assert x in multiset(b);
    var k :| 0 <= k < |b| && b[k] == x;
    pre, post := b[..k], b[k + 1..];
    assert b == pre + [x] + post;
    TakeOut(before, x, []);
    TakeOut(pre, x, post);
  }

  /** Any two orders of the same records give the same map. */
  lemma {:induction false} OrderDoesNotMatter(a: seq<Record>, b: seq<Record>)
    requires multiset(a) == multiset(b)
    ensures Fold(a) == Fold(b)
    decreases |a|
  {
    if a == [] {
      assert |b| == |multiset(b)| == |multiset(a)| == 0;
    } else {
      var pre, post := FindLast(a, b);
      OrderDoesNotMatter(a[..|a| - 1], pre + post);
      MoveToEnd(pre, a[|a| - 1], post);
      assert (pre + post + [a[|a| - 1]])[..|pre + post|] == pre + post;
    }
  }

  // ---------- What the fold means ----------

  /** How many records are for a route in `routes`. */
  ghost function Count(log: seq<Record>, routes: set<Route>): nat {
    if log == [] then 0
    else Count(log[..|log| - 1], routes) + if log[|log| - 1].route in routes then 1 else 0
  }

  /** How many of those failed. */
  ghost function Failures(log: seq<Record>, routes: set<Route>): nat {
    if log == [] then 0
    else
      var r := log[|log| - 1];
      Failures(log[..|log| - 1], routes) + if r.route in routes && !r.ok then 1 else 0
  }

  /** The time they took together. */
  ghost function Elapsed(log: seq<Record>, route: Route): nat {
    if log == [] then 0
    else
      var r := log[|log| - 1];
      Elapsed(log[..|log| - 1], route) + if r.route == route then r.elapsedUs else 0
  }

  /** `v` is the least, or the greatest, elapsed time recorded for the route. */
  ghost predicate IsLeast(log: seq<Record>, route: Route, v: nat) {
    && (exists i :: 0 <= i < |log| && log[i].route == route && log[i].elapsedUs == v)
    && (forall i :: 0 <= i < |log| && log[i].route == route ==> v <= log[i].elapsedUs)
  }

  ghost predicate IsGreatest(log: seq<Record>, route: Route, v: nat) {
    && (exists i :: 0 <= i < |log| && log[i].route == route && log[i].elapsedUs == v)
    && (forall i :: 0 <= i < |log| && log[i].route == route ==> log[i].elapsedUs <= v)
  }

  /** The sums in an entry are the log's, modulo 2^64, and a route is present when it has a record. */
  lemma {:induction false} FoldSums(log: seq<Record>, route: Route)
    ensures route in Fold(log) <==> Count(log, {route}) > 0
    ensures Entry(Fold(log), route).requests == Wrap(Count(log, {route}))
    ensures Entry(Fold(log), route).errors == Wrap(Failures(log, {route}))
    ensures Entry(Fold(log), route).totalUs == Wrap(Elapsed(log, route))
  {
    if log != [] {
      var before, r := log[..|log| - 1], log[|log| - 1];
      FoldSums(before, route);
      WrapSum(Count(before, {route}), 1);
      WrapSum(Failures(before, {route}), 1);
      WrapSum(Elapsed(before, route), r.elapsedUs);
    }
  }

  lemma {:induction false} FoldExtremes(log: seq<Record>, route: Route)
    ensures route in Fold(log) ==> IsLeast(log, route, Fold(log)[route].minUs) && IsGreatest(log, route, Fold(log)[route].maxUs)
    ensures route !in Fold(log) ==> forall i :: 0 <= i < |log| ==> log[i].route != route
  {
    if log != [] {
      var before, r := log[..|log| - 1], log[|log| - 1];
      assert log == before + [r];
      FoldExtremes(before, route);
      if r.route == route {
        assert log[|log| - 1] == r;
      }
      if route in Fold(before) {
        var i :| 0 <= i < |before| && before[i].route == route && before[i].elapsedUs == Fold(before)[route].minUs;
        var j :| 0 <= j < |before| && before[j].route == route && before[j].elapsedUs == Fold(before)[route].maxUs;
        assert log[i] == before[i] && log[j] == before[j];
      }
    }
  }

  // ---------- Bounds on the mean ----------

  lemma {:induction false} ElapsedBetween(log: seq<Record>, route: Route, lo: nat, hi: nat)
    requires forall i :: 0 <= i < |log| && log[i].route == route ==> lo <= log[i].elapsedUs <= hi
    ensures Count(log, {route}) * lo <= Elapsed(log, route) <= Count(log, {route}) * hi
  {
    if log != [] {
      var before := log[..|log| - 1];
      ElapsedBetween(before, route, lo, hi);
      Distribute(Count(before, {route}), 1, lo);
      Distribute(Count(before, {route}), 1, hi);
    }
  }

  /** Without overflow the mean latency of a route lies between its extremes. */
  lemma MeanWithinExtremes(log: seq<Record>, route: Route)
    requires route in Fold(log) && Count(log, {route}) < W64 && Elapsed(log, route) < W64
    ensures var s := Fold(log)[route];
            && s.requests > 0 && s.errors <= s.requests && s.minUs <= s.maxUs
            && s.requests * s.minUs <= s.totalUs <= s.requests * s.maxUs
  {
    FoldSums(log, route);
    FoldExtremes(log, route);
    FewerFailures(log, {route});
    ElapsedBetween(log, route, Fold(log)[route].minUs, Fold(log)[route].maxUs);
  }

  lemma {:induction false} FewerFailures(log: seq<Record>, routes: set<Route>)
    ensures Failures(log, routes) <= Count(log, routes)
  {
    if log != [] { FewerFailures(log[..|log| - 1], routes); }
  }

  // ---------- The totals ----------

  lemma {:induction false} OneMoreRoute(log: seq<Record>, routes: set<Route>, route: Route)
    requires route !in routes
    ensures Count(log, routes + {route}) == Count(log, routes) + Count(log, {route})
    ensures Failures(log, routes + {route}) == Failures(log, routes) + Failures(log, {route})
  {
    if log != [] { OneMoreRoute(log[..|log| - 1], routes, route); }
  }

  /** How many records of the log failed. */
  ghost function Failed(log: seq<Record>): nat {
    if log == [] then 0 else Failed(log[..|log| - 1]) + if log[|log| - 1].ok then 0 else 1
  }

  lemma {:induction false} AllRoutes(log: seq<Record>, routes: set<Route>)
    requires forall i :: 0 <= i < |log| ==> log[i].route in routes
    ensures Count(log, routes) == |log| && Failures(log, routes) == Failed(log)
  {
    if log != [] { AllRoutes(log[..|log| - 1], routes); }
  }

  lemma {:induction false} NoRoutes(log: seq<Record>)
    ensures Count(log, {}) == 0 && Failures(log, {}) == 0
  {
    if log != [] { NoRoutes(log[..|log| - 1]); }
  }

  lemma KeysCoverLog(log: seq<Record>)
    ensures forall i :: 0 <= i < |log| ==> log[i].route in Fold(log)
  {
    forall i | 0 <= i < |log|
      ensures log[i].route in Fold(log)
    {
      FoldExtremes(log, log[i].route);
    }
  }

  class RequestStats {
    var stats: map<Route, RouteStats>
    /** Every record so far, in lock order. */
    ghost var log: seq<Record>

    ghost predicate Valid()
      reads this
    {
      stats == Fold(log)
    }

    constructor ()
      ensures Valid() && log == []
    {
      stats, log := map[], [];
    }

    method Note(route: Route, elapsedUs: U64, ok: bool)
      requires Valid()
      modifies this
      ensures Valid() && log == old(log) + [Record(route, elapsedUs, ok)]
    {
      var r := Record(route, elapsedUs, ok);
      assert (log + [r])[..|log|] == log;
      stats := Noted(stats, r);
      log := log + [r];
    }

    method TotalRequests() returns (n: U64)
      requires Valid()
      ensures n == Wrap(|log|)
    {
      n := 0;
      var left := stats.Keys;
      NoRoutes(log);
      assert stats.Keys - left == {};
      while left != {}
        invariant left <= stats.Keys
        invariant n == Wrap(Count(log, stats.Keys - left))
        decreases |left|
      {
        var route :| route in left;
        FoldSums(log, route);
        OneMoreRoute(log, stats.Keys - left, route);
        assert stats.Keys - (left - {route}) == (stats.Keys - left) + {route};
        WrapAdds(Count(log, stats.Keys - left), Count(log, {route}));
        n := Add64(n, stats[route].requests);
        left := left - {route};
      }
      KeysCoverLog(log);
      AllRoutes(log, stats.Keys);
      assert stats.Keys - left == stats.Keys;
    }

    method TotalErrors() returns (n: U64)
      requires Valid()
      ensures n == Wrap(Failed(log)) && Failed(log) <= |log|
    {
      n := 0;
      var left := stats.Keys;
      NoRoutes(log);
      assert stats.Keys - left == {};
      while left != {}
        invariant left <= stats.Keys
        invariant n == Wrap(Failures(log, stats.Keys - left))
        decreases |left|
      {
        var route :| route in left;
        FoldSums(log, route);
        OneMoreRoute(log, stats.Keys - left, route);
        assert stats.Keys - (left - {route}) == (stats.Keys - left) + {route};
        WrapAdds(Failures(log, stats.Keys - left), Failures(log, {route}));
        n := Add64(n, stats[route].errors);
        left := left - {route};
      }
      KeysCoverLog(log);
      AllRoutes(log, stats.Keys);
      FewerFailures(log, stats.Keys);
      assert stats.Keys - left == stats.Keys;
    }

    /** A copy of the map; what it says of a route is what the log says. */
    method Snapshot() returns (copy: map<Route, RouteStats>)
      requires Valid()
      ensures copy == Fold(log)
    {
      copy := stats;
    }
  }

  /** A request timer and the statistics it reports to. */
  class RequestTimer {
    const stats: RequestStats
    const route: Route
    var done: bool

    constructor (stats: RequestStats, route: Route)
      ensures this.stats == stats && this.route == route && !done
    {
      this.stats, this.route, done := stats, route, false;
    }

    /** The elapsed time is what the clock shows at the call. */
    method Finish(ok: bool, elapsedUs: U64)
      requires stats.Valid()
      modifies this, stats
      ensures done && stats.Valid()
      ensures stats.log == old(stats.log) + if old(done) then [] else [Record(route, elapsedUs, ok)]
    {
      if done { return; }
      done := true;
      stats.Note(route, elapsedUs, ok);
    }
  }

  /**
   A timer's whole life: any number of `finish` calls and then the destructor, which finishes as
   failed. Exactly one record results, that of the first call.
   */
  method TimerLife(stats: RequestStats, route: Route, calls: seq<(bool, U64)>, atEnd: U64)
    requires stats.Valid()
    modifies stats
    ensures stats.Valid()
    ensures stats.log == old(stats.log) + [if calls == [] then Record(route, atEnd, false) else Record(route, calls[0].1, calls[0].0)]
  {
    var timer := new RequestTimer(stats, route);
    for i := 0 to |calls|
      invariant stats.Valid() && timer.stats == stats && timer.route == route && fresh(timer)
      invariant timer.done <==> i > 0
      invariant stats.log == old(stats.log) + if i == 0 then [] else [Record(route, calls[0].1, calls[0].0)]
    {
      timer.Finish(calls[i].0, calls[i].1);
    }
    timer.Finish(false, atEnd);
  }
}
