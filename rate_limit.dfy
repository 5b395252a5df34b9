/**
 * backend/src/middleware/rate-limit.ts: a fixed-window request counter per
 * client identifier. The clock (`Date.now()`) is a parameter `now` in
 * milliseconds; the periodic `setInterval` that calls `cleanup` is left to
 * the caller.
 */
module RateLimit {

  datatype Entry = Entry(count: int, resetAt: int)

  datatype Decision = Decision(allowed: bool, remaining: int, resetAt: int)

  /** Whether the stored window of an identifier is absent or over at `now`. */
  predicate StartsNewWindow(limits: map<string, Entry>, id: string, now: int) {
    id !in limits || now >= limits[id].resetAt
  }

  /** The entry `check` works on: the stored one, or a fresh window. */
  function CurrentEntry(limits: map<string, Entry>, id: string, now: int, windowMs: int): Entry {
    if StartsNewWindow(limits, id, now) then Entry(0, now + windowMs) else limits[id]
  }

  /**
   * `check(identifier)` at time `now`: the decision and the new map. A fresh
   * window is stored even when the request is then denied.
   */
  function Step(limits: map<string, Entry>, maxRequests: int, windowMs: int, id: string, now: int)
    : (r: (Decision, map<string, Entry>))
    ensures r.1.Keys == limits.Keys + {id}
    ensures forall other :: other in limits && other != id ==> r.1[other] == limits[other]
    ensures r.0.resetAt == r.1[id].resetAt
  {
    var e := CurrentEntry(limits, id, now, windowMs);
    if e.count >= maxRequests then
      (Decision(false, 0, e.resetAt), limits[id := e])
    else
      var e' := Entry(e.count + 1, e.resetAt);
      (Decision(true, maxRequests - e'.count, e.resetAt), limits[id := e'])
  }

  /** Every stored count is between 0 and the limit (or 0 when the limit is not positive). */
  predicate CountsBounded(limits: map<string, Entry>, maxRequests: int) {
    forall id :: id in limits ==> 0 <= limits[id].count && (limits[id].count <= maxRequests || limits[id].count == 0)
  }

  /** `cleanup()` at time `now`: the entries whose window is still open. */
  function Sweep(limits: map<string, Entry>, now: int): (r: map<string, Entry>)
    ensures forall id :: id in r <==> id in limits && now < limits[id].resetAt
    ensures forall id :: id in r ==> r[id] == limits[id]
  {
    map id | id in limits && now < limits[id].resetAt :: limits[id]
  }

  class RateLimiter {
    const maxRequests: int
    const windowMs: int
    var limits: map<string, Entry>

    ghost predicate Valid()
      reads this
    {
      CountsBounded(limits, maxRequests)
    }

    /** The constructor; `config.rateLimitRequests` and `config.rateLimitWindow`. */
    constructor(rateLimitRequests: int, rateLimitWindow: int)
      ensures maxRequests == rateLimitRequests && windowMs == rateLimitWindow
      ensures limits == map[]
      ensures Valid()
    {
      maxRequests := rateLimitRequests;
      windowMs := rateLimitWindow;
      limits := map[];
    }

    /** `check(identifier)`. */
    method Check(identifier: string, now: int) returns (d: Decision)
      requires Valid()
      modifies this
      ensures (d, limits) == Step(old(limits), maxRequests, windowMs, identifier, now)
      ensures Valid()
    {
      StepKeepsCountsBounded(limits, maxRequests, windowMs, identifier, now);
      var before := limits;
      var entry: Entry;
      if identifier !in limits || now >= limits[identifier].resetAt {
        entry := Entry(0, now + windowMs);
        limits := limits[identifier := entry];
      } else {
        entry := limits[identifier];
        assert limits[identifier := entry] == limits;
      }
      if entry.count >= maxRequests {
        return Decision(false, 0, entry.resetAt);
      }
      entry := entry.(count := entry.count + 1);
      limits := limits[identifier := entry];
      assert limits == before[identifier := entry];
      d := Decision(true, maxRequests - entry.count, entry.resetAt);
    }

    /** `cleanup()`: deletes, while iterating, every entry whose window is over. */
    method Cleanup(now: int)
      modifies this
      ensures limits == Sweep(old(limits), now)
      ensures old(Valid()) ==> Valid()
    {
      var keys := limits.Keys;
      while keys != {}
        invariant keys <= old(limits).Keys
        invariant forall id :: id in limits <==> id in old(limits) && (id in keys || now < old(limits)[id].resetAt)
        invariant forall id :: id in limits ==> limits[id] == old(limits)[id]
        decreases keys
      {
        var id :| id in keys;
        if now >= limits[id].resetAt {
          limits := limits - {id};
        }
        keys := keys - {id};
      }
    }
  }

  // ---------------------------------------------------------------------
  // Properties of check
  // ---------------------------------------------------------------------

  /** An absent or expired window (`now >= resetAt`, inclusive) restarts at count 0. */
  lemma ExpiredWindowRestarts(limits: map<string, Entry>, maxRequests: int, windowMs: int, id: string, now: int)
    requires StartsNewWindow(limits, id, now)
    ensures var (d, l) := Step(limits, maxRequests, windowMs, id, now);
      d.resetAt == now + windowMs
      && (d.allowed <==> 0 < maxRequests)
      && l[id] == (if 0 < maxRequests then Entry(1, now + windowMs) else Entry(0, now + windowMs))
  {
  }

  /** At the limit the request is denied with nothing remaining and the count is kept. */
  lemma DeniedAtLimit(limits: map<string, Entry>, maxRequests: int, windowMs: int, id: string, now: int)
    requires CurrentEntry(limits, id, now, windowMs).count >= maxRequests
    ensures var (d, l) := Step(limits, maxRequests, windowMs, id, now);
      !d.allowed && d.remaining == 0 && l[id] == CurrentEntry(limits, id, now, windowMs)
  {
  }

  /** Below the limit the count goes up by one and `remaining` is what is left. */
  lemma AllowedBelowLimit(limits: map<string, Entry>, maxRequests: int, windowMs: int, id: string, now: int)
    requires CurrentEntry(limits, id, now, windowMs).count < maxRequests
    ensures var (d, l) := Step(limits, maxRequests, windowMs, id, now);
      var e := CurrentEntry(limits, id, now, windowMs);
      d.allowed && l[id] == Entry(e.count + 1, e.resetAt) && d.remaining == maxRequests - (e.count + 1)
      && 0 <= d.remaining
  {
  }

  /** Within an open window the window end does not move. */
  lemma OpenWindowKeepsReset(limits: map<string, Entry>, maxRequests: int, windowMs: int, id: string, now: int)
    requires id in limits && now < limits[id].resetAt
    ensures Step(limits, maxRequests, windowMs, id, now).1[id].resetAt == limits[id].resetAt
    ensures Step(limits, maxRequests, windowMs, id, now).0.resetAt == limits[id].resetAt
  {
  }

  /** `check` keeps every count within bounds. */
  lemma StepKeepsCountsBounded(limits: map<string, Entry>, maxRequests: int, windowMs: int, id: string, now: int)
    requires CountsBounded(limits, maxRequests)
    ensures CountsBounded(Step(limits, maxRequests, windowMs, id, now).1, maxRequests)
  {
  }

  // ---------------------------------------------------------------------
  // A burst of requests
  // ---------------------------------------------------------------------

  /** The decisions of successive `check(id)` calls at the given times. */
  function Run(limits: map<string, Entry>, maxRequests: int, windowMs: int, id: string, times: seq<int>)
    : (r: seq<Decision>)
    ensures |r| == |times|
    decreases |times|
  {
    if times == [] then []
    else
      var (d, l) := Step(limits, maxRequests, windowMs, id, times[0]);
      [d] + Run(l, maxRequests, windowMs, id, times[1..])
  }

  /**
   * The shape of a burst's decisions when the window already counts `c`
   * requests: the i-th call is allowed exactly when c + i is below the
   * limit, with remaining `limit - (c + i + 1)`, and all share one window end.
   */
  predicate BurstShape(ds: seq<Decision>, c: int, maxRequests: int, resetAt: int) {
    forall i :: 0 <= i < |ds| ==>
      ds[i].resetAt == resetAt
      && (ds[i].allowed <==> c + i < maxRequests)
      && ds[i].remaining == (if c + i < maxRequests then maxRequests - (c + i + 1) else 0)
  }

  /** Calls inside one open window follow the burst shape from its current count. */
  lemma {:induction false} RunInsideWindow(limits: map<string, Entry>, maxRequests: int, windowMs: int, id: string, times: seq<int>)
    requires id in limits && 0 <= limits[id].count
    requires forall i :: 0 <= i < |times| ==> times[i] < limits[id].resetAt
    ensures BurstShape(Run(limits, maxRequests, windowMs, id, times), limits[id].count, maxRequests, limits[id].resetAt)
    decreases |times|
  {
    if times != [] {
      var c := limits[id].count;
      var (d, l) := Step(limits, maxRequests, windowMs, id, times[0]);
      var c' := l[id].count;
      assert l[id].resetAt == limits[id].resetAt;
      assert c' == if c < maxRequests then c + 1 else c;
      RunInsideWindow(l, maxRequests, windowMs, id, times[1..]);
      var ds := Run(limits, maxRequests, windowMs, id, times);
      var rest := Run(l, maxRequests, windowMs, id, times[1..]);
      assert ds == [d] + rest;
      assert BurstShape(rest, c', maxRequests, limits[id].resetAt);
      forall i | 1 <= i < |ds|
        ensures ds[i].resetAt == limits[id].resetAt
        ensures ds[i].allowed <==> c + i < maxRequests
        ensures ds[i].remaining == (if c + i < maxRequests then maxRequests - (c + i + 1) else 0)
      {
        assert ds[i] == rest[i - 1];
      }
    }
  }

  /**
   * With a limit of N, a client whose window is absent or over gets N
   * allowed calls (remaining N-1 down to 0) and then denials, as long as the
   * calls come before the window opened by the first one ends.
   */
  lemma {:induction false} BurstFromFreshWindow(limits: map<string, Entry>, maxRequests: int, windowMs: int, id: string, times: seq<int>)
    requires times != [] && StartsNewWindow(limits, id, times[0])
    requires forall i :: 1 <= i < |times| ==> times[i] < times[0] + windowMs
    ensures BurstShape(Run(limits, maxRequests, windowMs, id, times), 0, maxRequests, times[0] + windowMs)
  {
    var (d, l) := Step(limits, maxRequests, windowMs, id, times[0]);
    var c := l[id].count;
    assert c == if 0 < maxRequests then 1 else 0;
    forall i | 0 <= i < |times[1..]| ensures times[1..][i] < l[id].resetAt {
      assert times[1..][i] == times[i + 1];
    }
    RunInsideWindow(l, maxRequests, windowMs, id, times[1..]);
    var ds := Run(limits, maxRequests, windowMs, id, times);
    var rest := Run(l, maxRequests, windowMs, id, times[1..]);
    assert ds == [d] + rest;
    assert BurstShape(rest, c, maxRequests, times[0] + windowMs);
    forall i | 1 <= i < |ds|
      ensures ds[i].resetAt == times[0] + windowMs
      ensures ds[i].allowed <==> i < maxRequests
      ensures ds[i].remaining == (if i < maxRequests then maxRequests - (i + 1) else 0)
    {
      assert ds[i] == rest[i - 1];
    }
  }

  // ---------------------------------------------------------------------
  // Properties of cleanup
  // ---------------------------------------------------------------------

  /** `cleanup` keeps every count within bounds. */
  lemma SweepKeepsCountsBounded(limits: map<string, Entry>, maxRequests: int, now: int)
    requires CountsBounded(limits, maxRequests)
    ensures CountsBounded(Sweep(limits, now), maxRequests)
  {
  }

  /**
   * `cleanup` is unobservable: a `check` at or after the sweep decides as it
   * would have without it, since every removed window would have been
   * restarted anyway.
   */
  lemma SweepIsUnobservable(limits: map<string, Entry>, maxRequests: int, windowMs: int, id: string, sweptAt: int, now: int)
    requires sweptAt <= now
    ensures Step(Sweep(limits, sweptAt), maxRequests, windowMs, id, now).0
         == Step(limits, maxRequests, windowMs, id, now).0
  {
    var swept := Sweep(limits, sweptAt);
    assert CurrentEntry(swept, id, now, windowMs) == CurrentEntry(limits, id, now, windowMs);
  }
}
