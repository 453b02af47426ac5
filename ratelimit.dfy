/**
 * The fixed-window request limiter of app/lib/api/rateLimit.ts. The in-memory
 * table maps a key "prefix:ip" to the requests counted in its current window
 * and the time the window ends; over the limit a request is refused with
 * status 429 (Too Many Requests, section 4 of RFC 6585).
 */
module RateLimit {
  import Text
  import opened Wrappers
  import opened ApiErrors

  datatype Window = Window(count: int, resetTime: int)

  /** `RateLimitConfig`; an unset or empty `keyPrefix` is "". */
  datatype Config = Config(maxRequests: int, windowMs: int, keyPrefix: string)

  /** The configuration used when a route passes none: 100 requests a minute. */
  const DefaultConfig := Config(100, 60000, "")

  /** `Math.ceil(d / 1000)`. */
  function CeilSeconds(d: int): (r: int)
    ensures 1000 * (r - 1) < d <= 1000 * r
  {
    -((-d) / 1000)
  }

  /** The table key: the prefix ("default" when unset) and the client address. */
  function StoreKey(cfg: Config, ip: string): (k: string)
    ensures cfg.keyPrefix != "" ==> k == cfg.keyPrefix + ":" + ip
    ensures cfg.keyPrefix == "" ==> k == "default:" + ip
  {
    (if cfg.keyPrefix == "" then "default" else cfg.keyPrefix) + ":" + ip
  }

  function TooMany(retryAfter: int): Thrown {
    ApiError(429, "Too many requests. Please try again in " + Text.IntToString(retryAfter) + " seconds.", None)
  }

  /** One request on one key: the key's new window and whether the request passes. */
  function Decide(w: Option<Window>, now: int, cfg: Config): (r: (Window, Outcome<()>))
    ensures (w.None? || w.value.resetTime < now) ==> r == (Window(1, now + cfg.windowMs), Ok(()))
    ensures w.Some? && w.value.resetTime >= now ==>
      r.0 == Window(w.value.count + 1, w.value.resetTime)
      && (r.1.Ok? <==> w.value.count + 1 <= cfg.maxRequests)
      && (r.1.Throws? ==> r.1.error == TooMany(CeilSeconds(w.value.resetTime - now)))
  {
    if w.None? || w.value.resetTime < now then (Window(1, now + cfg.windowMs), Ok(()))
    else
      var c := w.value.count + 1;
      var next := Window(c, w.value.resetTime);
      if c > cfg.maxRequests then (next, Throws(TooMany(CeilSeconds(w.value.resetTime - now))))
      else (next, Ok(()))
  }

  function Get(store: map<string, Window>, key: string): Option<Window> {
    if key in store then Some(store[key]) else None
  }

  /** The retry hint is a whole number of seconds covering what is left of the window. */
  lemma RetryHint(w: Window, now: int, cfg: Config)
    requires w.resetTime >= now && w.count + 1 > cfg.maxRequests
    ensures var e := Decide(Some(w), now, cfg).1.error;
      e.statusCode == 429 && 1000 * (CeilSeconds(w.resetTime - now) - 1) < w.resetTime - now <= 1000 * CeilSeconds(w.resetTime - now)
  {
  }

  /** A request at exactly the reset time still counts against the old window. */
  lemma ResetIsStrict(w: Window, cfg: Config)
    ensures Decide(Some(w), w.resetTime, cfg).0 == Window(w.count + 1, w.resetTime)
  {
  }

  /** The outcomes of successive requests on one key, starting from its window `w`. */
  function Run(w: Option<Window>, times: seq<int>, cfg: Config): (r: seq<Outcome<()>>)
    ensures |r| == |times|
    decreases |times|
  {
    if times == [] then []
    else
      var step := Decide(w, times[0], cfg);
      [step.1] + Run(Some(step.0), times[1..], cfg)
  }

  function Passed(os: seq<Outcome<()>>): (n: nat)
    ensures n <= |os|
  {
    if os == [] then 0 else (if os[0].Ok? then 1 else 0) + Passed(os[1..])
  }

  /** Inside an open window with `count` requests so far, at most `max - count` more pass. */
  lemma {:induction false} RunWithinWindow(w: Window, times: seq<int>, cfg: Config)
    requires forall k :: 0 <= k < |times| ==> times[k] <= w.resetTime
    ensures Passed(Run(Some(w), times, cfg)) <= if cfg.maxRequests - w.count > 0 then cfg.maxRequests - w.count else 0
    decreases |times|
  {
    if times != [] {
      var step := Decide(Some(w), times[0], cfg);
      assert step.0 == Window(w.count + 1, w.resetTime);
      RunWithinWindow(step.0, times[1..], cfg);
    }
  }

  /**
   * At most `maxRequests` requests pass in one window: the request that opens
   * it and every later one up to its reset time. (With `maxRequests` below 1
   * the opening request still passes.)
   */
  lemma {:induction false} WindowBound(w: Option<Window>, t0: int, times: seq<int>, cfg: Config)
    requires w.None? || w.value.resetTime < t0
    requires forall k :: 0 <= k < |times| ==> times[k] <= t0 + cfg.windowMs
    ensures Passed(Run(w, [t0] + times, cfg)) <= if cfg.maxRequests >= 1 then cfg.maxRequests else 1
  {
    var opening := Window(1, t0 + cfg.windowMs);
    assert ([t0] + times)[1..] == times;
    var rest := Run(Some(opening), times, cfg);
    assert Run(w, [t0] + times, cfg) == [Ok(())] + rest;
    assert ([Ok(())] + rest)[1..] == rest;
    assert Passed([Ok(())] + rest) == 1 + Passed(rest);
    RunWithinWindow(opening, times, cfg);
  }

  /** The cleanup sweep's result: exactly the entries whose window has not ended before `now`. */
  function Swept(store: map<string, Window>, now: int): (r: map<string, Window>)
    ensures forall k :: k in r <==> k in store && store[k].resetTime >= now
    ensures forall k :: k in r ==> r[k] == store[k]
  {
    map k | k in store && store[k].resetTime >= now :: store[k]
  }

  class Limiter {
    /** `rateLimitStore`. */
    var store: map<string, Window>

    constructor()
      ensures store == map[]
    {
      store := map[];
    }

    /**
     * `rateLimit`: skipped when RATE_LIMIT_ENABLED is "false"; otherwise the
     * request's key alone is updated, and the request passes or throws 429.
     */
    method Check(forwardedFor: Option<string>, realIp: Option<string>, cfg: Config, now: int, enabledEnv: Option<string>)
      returns (r: Outcome<()>)
      modifies this
      ensures enabledEnv == Some("false") ==> r == Ok(()) && store == old(store)
      ensures enabledEnv != Some("false") ==>
        var key := StoreKey(cfg, ClientIp(forwardedFor, realIp));
        var d := Decide(Get(old(store), key), now, cfg);
        store == old(store)[key := d.0] && r == d.1
      ensures r.Throws? ==> r.error.statusCode == 429
    {
      if enabledEnv == Some("false") {
        return Ok(());
      }
      var ip := ClientIp(forwardedFor, realIp);
      var key := StoreKey(cfg, ip);
      var d := Decide(Get(store, key), now, cfg);
      store := store[key := d.0];
      r := d.1;
    }

    /** The five-minute cleanup: delete every entry whose reset time is before `now`. */
    method Cleanup(now: int)
      modifies this
      ensures store == Swept(old(store), now)
    {
      var keys := store.Keys;
      while keys != {}
        invariant keys <= old(store).Keys
        invariant forall k :: k in store <==> k in old(store) && (k in keys || old(store)[k].resetTime >= now)
        invariant forall k :: k in store ==> store[k] == old(store)[k]
        decreases keys
      {
        var k :| k in keys;
        if store[k].resetTime < now {
          store := store - {k};
        }
        keys := keys - {k};
      }
    }
  }
}
