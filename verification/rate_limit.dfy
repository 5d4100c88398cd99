/** The per-client token-bucket rate limiter in front of the FastAPI `/api/` routes
    (`middleware/rate_limit.py`). The monotonic clock reading is a parameter; the lock that
    serialises `_allow` is left out, so each call is one atomic step. */
module RateLimit {
  import opened Wrappers
  import Text
  import Numeric

  const MinRps := 0.1
  const DefaultRps := 5.0
  const DefaultBurst := 20
  const RateLimitedText := "Rate limit exceeded"

  datatype Bucket = Bucket(tokens: real, lastRefill: real)

  datatype Limiter = Limiter(enabled: bool, rps: real, burst: int, buckets: map<string, Bucket>)

  /** Every bucket holds between zero and `burst` tokens, with a positive rate and burst. */
  predicate Valid(l: Limiter) {
    && l.rps >= MinRps
    && l.burst >= 1
    && forall k :: k in l.buckets ==> 0.0 <= l.buckets[k].tokens <= l.burst as real
  }

  /** `RateLimitMiddleware.__init__`: the rate is raised to at least 0.1 per second and the
      burst to at least one request; no client has a bucket yet. */
  function NewLimiter(enabled: bool, rps: real, burst: int): (l: Limiter)
    ensures Valid(l)
    ensures l.rps == (if rps >= MinRps then rps else MinRps)
    ensures l.burst == (if burst >= 1 then burst else 1)
    ensures l.enabled == enabled && l.buckets == map[]
  {
    Limiter(enabled, Numeric.MaxR(rps, MinRps), Numeric.MaxI(burst, 1), map[])
  }

  /** The tokens after refilling for the time elapsed since the last call (never negative
      elapsed time), capped at the burst. */
  function Refilled(l: Limiter, b: Bucket, now: real): (t: real)
    requires Valid(l) && 0.0 <= b.tokens <= l.burst as real
    ensures b.tokens <= t <= l.burst as real
    ensures now <= b.lastRefill ==> t == b.tokens
    ensures t <= b.tokens + Numeric.MaxR(now - b.lastRefill, 0.0) * l.rps
    ensures t == l.burst as real || t == b.tokens + Numeric.MaxR(now - b.lastRefill, 0.0) * l.rps
  {
    var elapsed := Numeric.MaxR(now - b.lastRefill, 0.0);
    assert elapsed * l.rps >= 0.0 by {
      ProductNonNegative(elapsed, l.rps);
    }
    Numeric.MinR(l.burst as real, b.tokens + elapsed * l.rps)
  }

  lemma ProductNonNegative(a: real, b: real)
    requires a >= 0.0 && b >= 0.0
    ensures a * b >= 0.0
  {
  }

  /** `_allow(key)`: a client's first request is allowed and leaves `burst - 1` tokens;
      afterwards a request is allowed exactly when the refilled bucket holds a whole token,
      which it then spends. Either way the refill is recorded at `now`. */
  function Allow(l: Limiter, key: string, now: real): (r: (bool, Limiter))
    requires Valid(l)
    ensures Valid(r.1)
    ensures r.1.enabled == l.enabled && r.1.rps == l.rps && r.1.burst == l.burst
    ensures key in r.1.buckets && r.1.buckets[key].lastRefill == now
    ensures forall k :: k != key ==> (k in r.1.buckets <==> k in l.buckets)
    ensures forall k :: k != key && k in l.buckets ==> r.1.buckets[k] == l.buckets[k]
    ensures key !in l.buckets ==> r.0 && r.1.buckets[key].tokens == (l.burst - 1) as real
    ensures key in l.buckets ==>
      var t := Refilled(l, l.buckets[key], now);
      && (r.0 <==> t >= 1.0)
      && r.1.buckets[key].tokens == (if r.0 then t - 1.0 else t)
  {
    if key !in l.buckets then
      (true, l.(buckets := l.buckets[key := Bucket((l.burst - 1) as real, now)]))
    else
      var t := Refilled(l, l.buckets[key], now);
      if t < 1.0 then (false, l.(buckets := l.buckets[key := Bucket(t, now)]))
      else (true, l.(buckets := l.buckets[key := Bucket(t - 1.0, now)]))
  }

  /** `n` requests from one client at the same instant: the answers in order. */
  function Burst(l: Limiter, key: string, now: real, n: nat): (r: (seq<bool>, Limiter))
    requires Valid(l)
    ensures |r.0| == n && Valid(r.1)
    ensures r.1.burst == l.burst && r.1.rps == l.rps
    decreases n
  {
    if n == 0 then ([], l)
    else
      var (first, l1) := Allow(l, key, now);
      var (rest, l2) := Burst(l1, key, now, n - 1);
      ([first] + rest, l2)
  }

  /** A bucket refilled at `now` holding `k` whole tokens answers `k` allowed requests at
      `now` and then a denial. */
  lemma {:induction false} DrainAtSameInstant(l: Limiter, key: string, now: real, k: nat)
    requires Valid(l) && key in l.buckets
    requires l.buckets[key] == Bucket(k as real, now)
    ensures Burst(l, key, now, k + 1).0 == seq(k, _ => true) + [false]
    decreases k
  {
    var (first, l1) := Allow(l, key, now);
    assert Refilled(l, l.buckets[key], now) == k as real;
    if k == 0 {
      assert !first;
    } else {
      assert first && l1.buckets[key] == Bucket((k - 1) as real, now);
      DrainAtSameInstant(l1, key, now, k - 1);
      assert Burst(l, key, now, k + 1).0 == [true] + Burst(l1, key, now, k).0;
      assert [true] + (seq(k - 1, _ => true) + [false]) == seq(k, _ => true) + [false];
    }
  }

  /** With no time passing, a new client gets exactly `burst` allowed requests, then a 429. */
  lemma FreshClientGetsBurst(l: Limiter, key: string, now: real)
    requires Valid(l) && key !in l.buckets
    ensures Burst(l, key, now, l.burst + 1).0 == seq(l.burst, _ => true) + [false]
  {
    var (first, l1) := Allow(l, key, now);
    assert first && l1.buckets[key] == Bucket((l.burst - 1) as real, now);
    DrainAtSameInstant(l1, key, now, l.burst - 1);
    assert Burst(l, key, now, l.burst + 1).0 == [true] + Burst(l1, key, now, l.burst).0;
    assert [true] + (seq(l.burst - 1, _ => true) + [false]) == seq(l.burst, _ => true) + [false];
  }

  /** A drained bucket allows again once the elapsed time has refilled one whole token. */
  lemma DrainedBucketRecovers(l: Limiter, key: string, last: real, now: real)
    requires Valid(l) && key in l.buckets
    requires l.buckets[key] == Bucket(0.0, last)
    requires (now - last) * l.rps >= 1.0
    ensures Allow(l, key, now).0
  {
    assert now - last > 0.0 by {
      if now - last <= 0.0 {
        ProductNonPositive(now - last, l.rps);
      }
    }
    var b := l.buckets[key];
    var elapsed := Numeric.MaxR(now - b.lastRefill, 0.0);
    assert elapsed == now - last;
    assert b.tokens + elapsed * l.rps >= 1.0;
    assert Refilled(l, b, now) == Numeric.MinR(l.burst as real, b.tokens + elapsed * l.rps);
    assert Refilled(l, b, now) >= 1.0;
  }

  /** A drained bucket keeps refusing while the elapsed time has not yet earned a whole
      token. */
  lemma DrainedBucketStillRefused(l: Limiter, key: string, last: real, now: real)
    requires Valid(l) && key in l.buckets
    requires l.buckets[key] == Bucket(0.0, last)
    requires (now - last) * l.rps < 1.0
    ensures !Allow(l, key, now).0
  {
    var b := l.buckets[key];
    if now <= last {
      assert Refilled(l, b, now) == 0.0;
    } else {
      assert Numeric.MaxR(now - b.lastRefill, 0.0) == now - last;
      assert Refilled(l, b, now) <= (now - last) * l.rps;
    }
  }

  lemma ProductNonPositive(a: real, b: real)
    requires a <= 0.0 && b >= 0.0
    ensures a * b <= 0.0
  {
  }

  /** The client key: the peer's host, or "unknown" without one; forwarding headers are not
      trusted. */
  function ClientKey(host: Option<string>): string {
    host.GetOr("unknown")
  }

  datatype Outcome = Forwarded | Limited(status: int, detail: string, retryAfter: string)

  /** `dispatch`: when enabled, only paths under "/api/" spend a token; a denied request
      answers 429 with `Retry-After: 1` instead of reaching the application. */
  function Dispatch(l: Limiter, path: string, host: Option<string>, now: real): (r: (Outcome, Limiter))
    requires Valid(l)
    ensures Valid(r.1)
    ensures !l.enabled || !Text.StartsWith(path, "/api/") ==> r == (Forwarded, l)
    ensures l.enabled && Text.StartsWith(path, "/api/") ==>
      var ok, l1 := Allow(l, ClientKey(host), now).0, Allow(l, ClientKey(host), now).1;
      r == (if ok then Forwarded else Limited(429, RateLimitedText, "1"), l1)
  {
    if !l.enabled || !Text.StartsWith(path, "/api/") then (Forwarded, l)
    else
      var (ok, l1) := Allow(l, ClientKey(host), now);
      (if ok then Forwarded else Limited(429, RateLimitedText, "1"), l1)
  }
}
