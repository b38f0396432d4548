/** `rate_limit_middleware`: a per-client sliding window over the admin and
    telemetry routes. The store maps each client address to the instants of
    its accepted requests; the settings and the clock are parameters. */
module RateLimit {
  import opened Strings

  /** The instants of `ts` less than `window` before `now`, in order. */
  function Recent(ts: seq<int>, now: int, window: int): (r: seq<int>)
    ensures |r| <= |ts|
    ensures forall k :: 0 <= k < |r| ==> now - r[k] < window
  {
    if ts == [] then []
    else
      var init := Recent(ts[..|ts| - 1], now, window);
      var t := ts[|ts| - 1];
      if now - t < window then init + [t] else init
  }

  /** The routes the limiter guards. */
  predicate Limited(path: string) {
    StartsWith(path, "/api/admin") || StartsWith(path, "/api/telemetry")
  }

  class RateLimiter {
    const enabled: bool
    const limit: nat
    const window: int
    /** `rate_limit_store`: a missing client is an empty list. */
    var store: map<string, seq<int>>

    /** No client has more instants stored than the limit. */
    predicate Valid()
      reads this
    {
      forall ip :: ip in store ==> |store[ip]| <= limit
    }

    constructor (enabled: bool, limit: nat, window: int)
      ensures this.enabled == enabled && this.limit == limit && this.window == window
      ensures store == map[] && Valid()
    {
      this.enabled := enabled;
      this.limit := limit;
      this.window := window;
      store := map[];
    }

    function Stored(ip: string): seq<int>
      reads this
    {
      if ip in store then store[ip] else []
    }

    /** The decision for a request from `ip` to `path` at `now`: `true` passes
        it on, `false` answers 429. With limiting off or an unguarded path the
        store is untouched. Otherwise the client's instants are cut down to the
        recent ones; the request is refused, and not recorded, when as many as
        the limit remain, and recorded otherwise. No other client changes. */
    method Admit(path: string, ip: string, now: int) returns (allowed: bool)
      requires Valid()
      modifies this
      ensures Valid()
      ensures !enabled || !Limited(path) ==> allowed && store == old(store)
      ensures enabled && Limited(path) ==>
        var kept := Recent(old(Stored(ip)), now, window);
        && allowed == (|kept| < limit)
        && store == old(store)[ip := if allowed then kept + [now] else kept]
    {
      if !enabled || !Limited(path) {
        return true;
      }
      var kept := Recent(Stored(ip), now, window);
      store := store[ip := kept];
      if |kept| >= limit {
        return false;
      }
      store := store[ip := store[ip] + [now]];
      allowed := true;
    }
  }

  // ---------------------------------------------------------------------------
  // Properties
  // ---------------------------------------------------------------------------

  /** The recent instants are exactly those of `ts` less than `window` old. */
  lemma {:induction false} RecentMembers(ts: seq<int>, now: int, window: int, t: int)
    ensures t in Recent(ts, now, window) <==> t in ts && now - t < window
  {
    if ts != [] {
      var n := |ts| - 1;
      RecentMembers(ts[..n], now, window, t);
      assert ts == ts[..n] + [ts[n]];
    }
  }

  /** Recent instants are kept in the order they were stored. */
  lemma {:induction false} RecentOrdered(ts: seq<int>, now: int, window: int)
    requires forall j, k :: 0 <= j < k < |ts| ==> ts[j] <= ts[k]
    ensures var r := Recent(ts, now, window); forall j, k :: 0 <= j < k < |r| ==> r[j] <= r[k]
  {
    if ts != [] {
      var n := |ts| - 1;
      var init := Recent(ts[..n], now, window);
      RecentOrdered(ts[..n], now, window);
      forall j | 0 <= j < |init| ensures init[j] <= ts[n] {
        RecentMembers(ts[..n], now, window, init[j]);
      }
    }
  }

  /** Cutting down twice at the same instant is cutting down once. */
  lemma RecentIdempotent(ts: seq<int>, now: int, window: int)
    ensures Recent(Recent(ts, now, window), now, window) == Recent(ts, now, window)
  {
    RecentAllRecent(Recent(ts, now, window), now, window);
  }

  /** When every instant is recent nothing is cut. */
  lemma {:induction false} RecentAllRecent(ts: seq<int>, now: int, window: int)
    requires forall k :: 0 <= k < |ts| ==> now - ts[k] < window
    ensures Recent(ts, now, window) == ts
  {
    if ts != [] {
      var n := |ts| - 1;
      RecentAllRecent(ts[..n], now, window);
      assert ts == ts[..n] + [ts[n]];
    }
  }
}
