/** The limiter in front of a request handler, over the counter store of all its keys. */
module RateLimiter {
  import opened Wrappers
  import opened RateLimit

  function FullKey(prefix: string, identity: string): string {
    "ratelimit:" + prefix + ":" + identity
  }

  function BeforeColon(s: string): string {
    if s == "" || s[0] == ':' then "" else [s[0]] + BeforeColon(s[1..])
  }

  lemma BeforeColonIs(p: string, rest: string)
    requires ':' !in p
    ensures BeforeColon(p + (":" + rest)) == p
  {
    var s := p + (":" + rest);
    if p != "" {
      assert s[1..] == p[1..] + (":" + rest);
      BeforeColonIs(p[1..], rest);
    }
  }

  /** Identities of one limiter never share a counter, nor do limiters whose prefixes have no colon. */
  lemma CountersAreSeparate(p: string, i: string, q: string, j: string)
    requires p == q || (':' !in p && ':' !in q)
    requires FullKey(p, i) == FullKey(q, j)
    ensures p == q && i == j
  {
    var a, b := p + (":" + i), q + (":" + j);
    assert FullKey(p, i) == "ratelimit:" + a && FullKey(q, j) == "ratelimit:" + b;
    assert a == FullKey(p, i)[|"ratelimit:"|..] == b;
    if p != q {
      BeforeColonIs(p, i);
      BeforeColonIs(q, j);
    }
    assert i == a[|p| + 1..] && j == b[|q| + 1..];
  }

  /** With a colon in a prefix, two limiters can count on one key. */
  lemma ColonPrefixesCanCollide()
    ensures FullKey("login", "ip:1") == FullKey("login:ip", "1")
  {
  }

  type Windows = map<string, Window>

  function WindowOf(windows: Windows, key: string): Option<Window> {
    if key in windows then Some(windows[key]) else None
  }

  function HitAt(windows: Windows, key: string, now: nat, length: nat): Windows {
    windows[key := HitOn(WindowOf(windows, key), now, length)]
  }

  /** A hit counts in its key's open window, or opens one, and no other key's window changes. */
  lemma HitAtIs(windows: Windows, key: string, now: nat, length: nat, k: string)
    ensures
      var after := HitAt(windows, key, now, length);
      && key in after
      && after[key] == (if key in windows && now < windows[key].expiresAt
                        then Window(windows[key].count + 1, windows[key].expiresAt) else Window(1, now + length))
      && (k != key ==> (k in after <==> k in windows) && (k in after ==> after[k] == windows[k]))
  {
  }

  datatype Hit = Hit(key: string, at: nat)

  function AfterHits(hits: seq<Hit>, length: nat): Windows {
    if hits == [] then map[]
    else HitAt(AfterHits(hits[..|hits| - 1], length), hits[|hits| - 1].key, hits[|hits| - 1].at, length)
  }

  function TimesOf(hits: seq<Hit>, key: string): seq<nat> {
    if hits == [] then []
    else
      var h := hits[|hits| - 1];
      TimesOf(hits[..|hits| - 1], key) + if h.key == key then [h.at] else []
  }

  /** Each key's window depends on the hits on that key alone. */
  lemma {:induction false} KeysAreIndependent(hits: seq<Hit>, length: nat, key: string)
    ensures WindowOf(AfterHits(hits, length), key) == WindowAfter(TimesOf(hits, key), length)
  {
    if hits != [] {
      var before, h := hits[..|hits| - 1], hits[|hits| - 1];
      KeysAreIndependent(before, length, key);
      if h.key == key {
        Appended(TimesOf(before, key), length, 0, h.at, Since(0));
      } else {
        assert TimesOf(hits, key) == TimesOf(before, key);
      }
    }
  }

  datatype Headers = Headers(limit: int, remaining: int, reset: nat, retryAfter: Option<nat>)

  datatype Response = Response(passed: bool, headers: Option<Headers>)

  /** What a request meets: the switch, the identity it is counted under, the limit, and the store's condition. */
  datatype Request = Request(disabled: bool, identity: Option<string>, limit: int, storeFails: bool)

  /** The time to live that the in-memory store reports: the whole window when it opens, then what remains of it. */
  function TtlSeconds(w: Window, now: nat, windowSeconds: nat): nat {
    if w.count == 1 then windowSeconds else RemainingSeconds(w, now)
  }

  /** The limiter with the in-memory store; another store may round the time to live differently. */
  class Limiter {
    const prefix: string
    const windowSeconds: nat
    var windows: Windows

    /** A window exists from its first hit on. */
    ghost predicate Valid()
      reads this
    {
      forall k | k in windows :: windows[k].count > 0
    }

    constructor (prefix: string, windowSeconds: nat)
      ensures Valid() && this.prefix == prefix && this.windowSeconds == windowSeconds && windows == map[]
    {
      this.prefix := prefix;
      this.windowSeconds := windowSeconds;
      windows := map[];
    }

    /** Count a hit; a window that is open is never extended. */
    method StoreHit(key: string, now: nat) returns (count: nat, ttlSeconds: nat)
      requires Valid()
      modifies this`windows
      ensures Valid()
      ensures windows == HitAt(old(windows), key, now, 1000 * windowSeconds)
      ensures key in windows && count == windows[key].count && ttlSeconds == TtlSeconds(windows[key], now, windowSeconds)
      ensures key in old(windows) && now < old(windows)[key].expiresAt ==>
                && windows[key] == Window(old(windows)[key].count + 1, old(windows)[key].expiresAt)
                && windows[key].expiresAt <= now + 1000 * ttlSeconds < windows[key].expiresAt + 1000
      ensures key !in old(windows) || old(windows)[key].expiresAt <= now ==>
                windows[key] == Window(1, now + 1000 * windowSeconds) && ttlSeconds == windowSeconds
      ensures forall k | k != key :: WindowOf(windows, k) == WindowOf(old(windows), k)
    {
      if key !in windows || windows[key].expiresAt <= now {
        windows := windows[key := Window(1, now + 1000 * windowSeconds)];
        return 1, windowSeconds;
      }
      windows := windows[key := windows[key].(count := windows[key].count + 1)];
      return windows[key].count, RemainingSeconds(windows[key], now);
    }

    /**
     Requests that cannot be counted pass untouched; a counted one passes if and only if its count is
     within the limit, and a rejected one is told when the window closes.
    */
    method Handle(r: Request, now: nat) returns (response: Response)
      requires Valid()
      modifies this`windows
      ensures Valid()
      ensures r.disabled || r.identity.None? || r.storeFails ==> response == Response(true, None) && windows == old(windows)
      ensures !r.disabled && r.identity.Some? && !r.storeFails ==>
                var key := "ratelimit:" + prefix + ":" + r.identity.value;
                && windows == HitAt(old(windows), key, now, 1000 * windowSeconds)
                && (response.passed <==> windows[key].count <= r.limit)
                && response.headers.Some?
                && var h := response.headers.value;
                   && h.limit == r.limit && h.reset == TtlSeconds(windows[key], now, windowSeconds)
                   && (r.limit >= windows[key].count ==> h.remaining == r.limit - windows[key].count)
                   && (r.limit < windows[key].count ==> h.remaining == 0)
                   && h.retryAfter == (if response.passed then None else Some(h.reset))
    {
      if r.disabled || r.identity.None? || r.storeFails {
        return Response(true, None);
      }
      var count, ttlSeconds := StoreHit(FullKey(prefix, r.identity.value), now);
      var headers := Headers(r.limit, if r.limit - count > 0 then r.limit - count else 0, ttlSeconds, None);
      if count > r.limit {
        return Response(false, Some(headers.(retryAfter := Some(ttlSeconds))));
      }
      return Response(true, Some(headers));
    }
  }
}
