/**
 The fixed-window counter behind the rate limiter and what it guarantees over time. Times are in
 milliseconds; a window starts at the first hit after the previous one closed and is never extended.
*/
module RateLimit {
  import opened Wrappers

  datatype Window = Window(count: nat, expiresAt: nat)

  function HitOn(open: Option<Window>, now: nat, length: nat): Window {
    if open.None? || open.value.expiresAt <= now then Window(1, now + length)
    else Window(open.value.count + 1, open.value.expiresAt)
  }

  /** The in-memory store's remaining time: whole seconds, rounded up, at least one. */
  function RemainingSeconds(w: Window, now: nat): (ttl: nat)
    ensures ttl >= 1
  {
    if w.expiresAt <= now then 1 else (w.expiresAt - now + 999) / 1000
  }

  // ---------------------------------------------------------------- hits on one key

  predicate InTimeOrder(times: seq<nat>) {
    forall i, j | 0 <= i < j < |times| :: times[i] <= times[j]
  }

  /** The window of a key after hits at the given times. */
  function WindowAfter(times: seq<nat>, length: nat): Option<Window> {
    if times == [] then None
    else Some(HitOn(WindowAfter(times[..|times| - 1], length), times[|times| - 1], length))
  }

  /** The number of hits let through at times that satisfy `f`. */
  function Passed(times: seq<nat>, length: nat, limit: int, f: nat -> bool): nat {
    if times == [] then 0
    else
      Passed(times[..|times| - 1], length, limit, f)
      + if f(times[|times| - 1]) && WindowAfter(times, length).value.count <= limit then 1 else 0
  }

  /** The number of hits let through in the window that closes at `end`. */
  function PassedInWindow(times: seq<nat>, length: nat, limit: int, end: nat): nat {
    if times == [] then 0
    else
      var w := WindowAfter(times, length).value;
      PassedInWindow(times[..|times| - 1], length, limit, end)
      + if w.expiresAt == end && w.count <= limit then 1 else 0
  }

  function Least(a: int, b: int): int {
    if a < b then a else b
  }

  lemma OpenWindow(times: seq<nat>, length: nat)
    requires InTimeOrder(times) && times != []
    ensures var w := WindowAfter(times, length).value;
            && w.count >= 1 && length <= w.expiresAt <= times[|times| - 1] + length
            && (length > 0 ==> times[|times| - 1] < w.expiresAt)
  {
    if |times| > 1 {
      OpenWindow(times[..|times| - 1], length);
    }
  }

  lemma WindowCounts(times: seq<nat>, length: nat, limit: nat, end: nat)
    requires length > 0 && InTimeOrder(times)
    ensures times == [] ==> PassedInWindow(times, length, limit, end) == 0
    ensures times != [] ==>
              var w := WindowAfter(times, length).value;
              && (w.expiresAt < end ==> PassedInWindow(times, length, limit, end) == 0)
              && (w.expiresAt == end ==> PassedInWindow(times, length, limit, end) == Least(w.count, limit))
    ensures PassedInWindow(times, length, limit, end) <= limit
  {
    if times != [] {
      WindowCounts(times[..|times| - 1], length, limit, end);
      OpenWindow(times, length);
      if |times| > 1 {
        OpenWindow(times[..|times| - 1], length);
      }
    }
  }

  /** At most `limit` requests pass in one fixed window. */
  lemma LimitPerWindow(times: seq<nat>, length: nat, limit: int, end: nat)
    requires length > 0 && InTimeOrder(times)
    ensures PassedInWindow(times, length, limit, end) <= if limit < 0 then 0 else limit
  {
    if limit >= 0 {
      WindowCounts(times, length, limit, end);
    } else {
      NonePass(times, length, limit, end);
    }
  }

  lemma NonePass(times: seq<nat>, length: nat, limit: int, end: nat)
    requires limit < 0
    ensures PassedInWindow(times, length, limit, end) == 0
  {
  }

  // ---------------------------------------------------------------- sliding intervals

  lemma PassedWithin(times: seq<nat>, length: nat, limit: int, f: nat -> bool, g: nat -> bool, h: nat -> bool)
    requires forall i | 0 <= i < |times| && f(times[i]) :: g(times[i]) || h(times[i])
    ensures Passed(times, length, limit, f) <= Passed(times, length, limit, g) + Passed(times, length, limit, h)
  {
    if times != [] {
      var before := times[..|times| - 1];
      forall i | 0 <= i < |before| && f(before[i])
        ensures g(before[i]) || h(before[i])
      {
        assert before[i] == times[i];
      }
      PassedWithin(before, length, limit, f, g, h);
      assert f(times[|times| - 1]) ==> g(times[|times| - 1]) || h(times[|times| - 1]);
    }
  }

  /** Passes since `from`, within the half-open interval up to `to`. */
  function Between(from: int, to: int): nat -> bool {
    (t: nat) => from <= t < to
  }

  function Since(from: int): nat -> bool {
    (t: nat) => from <= t
  }

  lemma PassedNone(times: seq<nat>, length: nat, limit: int, f: nat -> bool)
    requires forall i | 0 <= i < |times| :: !f(times[i])
    ensures Passed(times, length, limit, f) == 0
  {
  }

  /**
   With a window that starts at `s` and has counted `count` hits: at most `limit` requests passed since `s`,
   one fewer after `s` itself, and one fewer than `limit` in the interval of one window length that ends at `s`.
  */
  predicate Around(times: seq<nat>, length: nat, limit: nat, s: int, count: int) {
    && Passed(times, length, limit, Since(s)) <= Least(count, limit)
    && Passed(times, length, limit, Since(s + 1)) <= Least(count, limit) - 1
    && Passed(times, length, limit, Between(s - length + 1, s)) <= limit - 1
  }

  lemma NothingSince(before: seq<nat>, length: nat, limit: nat, s: int)
    requires InTimeOrder(before) && (before != [] ==> before[|before| - 1] < s)
    ensures Passed(before, length, limit, Since(s)) == 0 && Passed(before, length, limit, Since(s + 1)) == 0
  {
    PassedNone(before, length, limit, Since(s));
    PassedNone(before, length, limit, Since(s + 1));
  }

  /** All of an interval that ends at the new window's start `s` lies after the earlier window's start `s0`. */
  lemma BeforeANewWindow(before: seq<nat>, length: nat, limit: nat, s: int, s0: int)
    requires s0 + length <= s && Passed(before, length, limit, Since(s0 + 1)) <= limit - 1
    ensures Passed(before, length, limit, Between(s - length + 1, s)) <= limit - 1
  {
    PassedNone(before, length, limit, Between(0, 0));
    PassedWithin(before, length, limit, Between(s - length + 1, s), Since(s0 + 1), Between(0, 0));
  }

  /** The last hit opens a window. */
  lemma AroundOpening(times: seq<nat>, length: nat, limit: nat, s: int)
    requires limit >= 1 && times != [] && s == times[|times| - 1] && WindowAfter(times, length).value.count == 1
    requires
      var before := times[..|times| - 1];
      && Passed(before, length, limit, Since(s)) == 0 && Passed(before, length, limit, Since(s + 1)) == 0
      && Passed(before, length, limit, Between(s - length + 1, s)) <= limit - 1
    ensures Around(times, length, limit, s, 1)
  {
  }

  /** The last hit falls into the open window. */
  lemma AroundOneMore(times: seq<nat>, length: nat, limit: nat, s: int, count: nat)
    requires times != [] && s <= times[|times| - 1] && WindowAfter(times, length).value.count == count + 1
    requires Around(times[..|times| - 1], length, limit, s, count)
    ensures Around(times, length, limit, s, count + 1)
  {
  }

  lemma AroundTheWindow(times: seq<nat>, length: nat, limit: nat)
    requires length > 0 && limit >= 1 && InTimeOrder(times) && times != []
    ensures var w := WindowAfter(times, length).value;
            Around(times, length, limit, w.expiresAt - length, w.count)
  {
    var n := |times| - 1;
    var before, t := times[..n], times[n];
    if before == [] {
      NothingSince(before, length, limit, t);
      AroundOpening(times, length, limit, t);
    } else {
      AroundTheWindow(before, length, limit);
      OpenWindow(before, length);
      var w := WindowAfter(before, length).value;
      if w.expiresAt <= t {
        NothingSince(before, length, limit, t);
        BeforeANewWindow(before, length, limit, t, w.expiresAt - length);
        AroundOpening(times, length, limit, t);
      } else {
        assert before[n - 1] <= t;
        AroundOneMore(times, length, limit, w.expiresAt - length, w.count);
      }
    }
  }

  /** Whatever the times, fewer than twice the limit pass in any half-open interval of one window length. */
  lemma {:induction false} SlidingBound(times: seq<nat>, length: nat, limit: nat, from: int)
    requires length > 0 && limit >= 1 && InTimeOrder(times)
    ensures Passed(times, length, limit, Between(from, from + length)) <= 2 * limit - 1
  {
    if times != [] {
      var t := times[|times| - 1];
      var within := Between(from, from + length);
      SlidingBound(times[..|times| - 1], length, limit, from);
      if within(t) {
        var s := WindowAfter(times, length).value.expiresAt - length;
        OpenWindow(times, length);
        AroundTheWindow(times, length, limit);
        PassedWithin(times, length, limit, within, Since(s), Between(s - length + 1, s));
      }
    }
  }

  /** A limit of zero or less lets nothing through. */
  lemma NothingPasses(times: seq<nat>, length: nat, limit: int, f: nat -> bool)
    requires limit <= 0
    ensures Passed(times, length, limit, f) == 0
  {
  }

  // ---------------------------------------------------------------- the bound is reached

  function Burst(t: nat, n: nat): seq<nat> {
    if n == 0 then [] else Burst(t, n - 1) + [t]
  }

  /** `n` hits at one time into an open window with room for them all. */
  lemma BurstPasses(times: seq<nat>, length: nat, limit: nat, t: nat, n: nat, f: nat -> bool)
    requires times != [] && WindowAfter(times, length).value.expiresAt > t && f(t)
    requires WindowAfter(times, length).value.count + n <= limit
    ensures var after := times + Burst(t, n);
            && WindowAfter(after, length) ==
               Some(Window(WindowAfter(times, length).value.count + n, WindowAfter(times, length).value.expiresAt))
            && Passed(after, length, limit, f) == Passed(times, length, limit, f) + n
  {
    var after := times + Burst(t, n);
    if n == 0 {
      assert after == times;
    } else {
      BurstPasses(times, length, limit, t, n - 1, f);
      assert after[..|after| - 1] == times + Burst(t, n - 1);
      assert after[|after| - 1] == t;
    }
  }

  lemma Appended(times: seq<nat>, length: nat, limit: nat, t: nat, f: nat -> bool)
    ensures WindowAfter(times + [t], length) == Some(HitOn(WindowAfter(times, length), t, length))
    ensures Passed(times + [t], length, limit, f) ==
            Passed(times, length, limit, f) + if f(t) && HitOn(WindowAfter(times, length), t, length).count <= limit then 1 else 0
  {
  }

  lemma AppendInOrder(times: seq<nat>, t: nat)
    requires InTimeOrder(times) && forall i | 0 <= i < |times| :: times[i] <= t
    ensures InTimeOrder(times + [t]) && forall i | 0 <= i < |times + [t]| :: (times + [t])[i] <= t
  {
  }

  lemma BurstInOrder(times: seq<nat>, t: nat, n: nat)
    requires InTimeOrder(times) && forall i | 0 <= i < |times| :: times[i] <= t
    ensures InTimeOrder(times + Burst(t, n))
    ensures forall i | 0 <= i < |times + Burst(t, n)| :: (times + Burst(t, n))[i] <= t
  {
    if n == 0 {
      assert times + Burst(t, n) == times;
    } else {
      BurstInOrder(times, t, n - 1);
      AppendInOrder(times + Burst(t, n - 1), t);
      assert times + Burst(t, n) == (times + Burst(t, n - 1)) + [t];
    }
  }

  /** One early hit, the rest of the limit just before its window closes, and a full next window. */
  function TightTimes(length: nat, limit: nat): seq<nat>
    requires length >= 2 && limit >= 1
  {
    [0] + Burst(length - 1, limit - 1) + [length] + Burst(length, limit - 1)
  }

  lemma TightTimesInOrder(length: nat, limit: nat)
    requires length >= 2 && limit >= 1
    ensures InTimeOrder(TightTimes(length, limit))
  {
    BurstInOrder([0], length - 1, limit - 1);
    BurstInOrder([0] + Burst(length - 1, limit - 1) + [length], length, limit - 1);
  }

  /** For every limit there are times at which twice the limit less one pass within one window length. */
  lemma SlidingBoundIsTight(length: nat, limit: nat)
    requires length >= 2 && limit >= 1
    ensures InTimeOrder(TightTimes(length, limit))
    ensures Passed(TightTimes(length, limit), length, limit, Between(1, 1 + length)) == 2 * limit - 1
  {
    TightTimesInOrder(length, limit);
    var f := Between(1, 1 + length);
    var full := [0] + Burst(length - 1, limit - 1);
    Appended([], length, limit, 0, f);
    assert [] + [0] == [0];
    BurstPasses([0], length, limit, length - 1, limit - 1, f);
    Appended(full, length, limit, length, f);
    BurstPasses(full + [length], length, limit, length, limit - 1, f);
  }

  // ---------------------------------------------------------------- retrying

  /** The hits of `times` at or after a time. */
  function CountSince(times: seq<nat>, from: nat): nat {
    if times == [] then 0
    else CountSince(times[..|times| - 1], from) + if times[|times| - 1] >= from then 1 else 0
  }

  /** Rounded up, the announced time is at or after the close of the window, by less than a second. */
  lemma AnnouncedAfterClose(w: Window, now: nat)
    requires now < w.expiresAt
    ensures w.expiresAt <= now + 1000 * RemainingSeconds(w, now) < w.expiresAt + 1000
  {
  }

  /** Hits within one window length of an open window's close: the first one at or after it opens the next window. */
  lemma FollowUps(open: Window, length: nat, more: seq<nat>, times: seq<nat>)
    requires length > 0 && times != [] && WindowAfter(times, length) == Some(open)
    requires InTimeOrder(more) && forall i | 0 <= i < |more| :: more[i] < open.expiresAt + length
    ensures var w := WindowAfter(times + more, length).value;
            var k := CountSince(more, open.expiresAt);
            && (k == 0 ==> w.expiresAt == open.expiresAt && w.count >= open.count)
            && (k > 0 ==> w.count == k && open.expiresAt + length <= w.expiresAt)
  {
    var all := times + more;
    if more == [] {
      assert all == times;
    } else {
      var n := |more| - 1;
      FollowUps(open, length, more[..n], times);
      assert all[..|all| - 1] == times + more[..n];
      assert all[|all| - 1] == more[n];
      if CountSince(more[..n], open.expiresAt) > 0 {
        SinceImpliesLast(more, open.expiresAt);
      }
    }
  }

  lemma NoneSince(more: seq<nat>, from: nat)
    requires forall i | 0 <= i < |more| :: more[i] < from
    ensures CountSince(more, from) == 0
  {
    if more != [] {
      NoneSince(more[..|more| - 1], from);
    }
  }

  lemma SinceImpliesLast(more: seq<nat>, from: nat)
    requires InTimeOrder(more) && more != [] && CountSince(more[..|more| - 1], from) > 0
    ensures more[|more| - 1] >= from
  {
    var n := |more| - 1;
    if n > 0 && more[n - 1] < from {
      SinceImpliesLast(more[..n], from);
    }
  }

  /**
   A rejected hit at `t` announces a wait of `ttl` seconds, whatever way the store rounds. Let `more` be the
   hits before that wait is over and `u` the first one afterwards. It passes if and only if the window has
   closed by then and the next one has room: fewer than `limit` hits came between the close and the announced
   time, or that next window is over too.
  */
  lemma RetryAfterIff(times: seq<nat>, t: nat, ttl: nat, more: seq<nat>, u: nat, length: nat, limit: int)
    requires length > 0 && InTimeOrder(times + [t]) && InTimeOrder(more)
    requires var w := WindowAfter(times + [t], length).value;
             var announced := t + 1000 * ttl;
             && w.count > limit && announced <= u && announced <= w.expiresAt + length
             && (forall i | 0 <= i < |more| :: more[i] < announced)
    ensures var w := WindowAfter(times + [t], length).value;
            var last := WindowAfter(times + [t] + more, length).value;
            var gap := CountSince(more, w.expiresAt);
            HitOn(Some(last), u, length).count <= limit <==>
            limit >= 1 && w.expiresAt <= u && (gap < limit || last.expiresAt <= u)
    ensures WindowAfter(times + [t] + more + [u], length) ==
            Some(HitOn(WindowAfter(times + [t] + more, length), u, length))
  {
    OpenWindow(times + [t], length);
    var w := WindowAfter(times + [t], length).value;
    FollowUps(w, length, more, times + [t]);
    if u < w.expiresAt {
      NoneSince(more, w.expiresAt);
    }
    Appended(times + [t] + more, length, 0, u, Since(0));
  }

  /** Where the announced wait outlasts the window and nobody comes in between, the first hit afterwards passes. */
  lemma RetryAfterPasses(times: seq<nat>, t: nat, ttl: nat, u: nat, length: nat)
    requires WindowAfter(times + [t], length).value.expiresAt <= t + 1000 * ttl <= u
    ensures WindowAfter(times + [t] + [u], length) == Some(Window(1, u + length))
  {
    Appended(times + [t], length, 0, u, Since(0));
  }

  /** Where it ends before the window does, a retry at the announced time is rejected again. */
  lemma EarlyRetryIsRejected(times: seq<nat>, t: nat, ttl: nat, length: nat, limit: int)
    requires var w := WindowAfter(times + [t], length).value; w.count > limit && t + 1000 * ttl < w.expiresAt
    ensures WindowAfter(times + [t] + [t + 1000 * ttl], length).value.count > limit
  {
    Appended(times + [t], length, 0, t + 1000 * ttl, Since(0));
  }

  // ---------------------------------------------------------------- retries that fail

  lemma NextWindow(times: seq<nat>, t: nat, length: nat, open: Option<Window>, next: Window)
    requires WindowAfter(times, length) == open && next == HitOn(open, t, length)
    ensures WindowAfter(times + [t], length) == Some(next)
  {
    Appended(times, length, 0, t, Since(0));
  }

  /**
   A window of ten seconds and a limit of 1. The hit at 9.5 s is rejected and told to wait one second; another
   one at 10.2 s opens and fills the next window, and the retry at 10.5 s is rejected.
  */
  lemma PatientRetryCanFail()
    ensures WindowAfter([0] + [9500], 10000) == Some(Window(2, 10000)) && RemainingSeconds(Window(2, 10000), 9500) == 1
    ensures WindowAfter([0] + [9500] + [10200] + [10500], 10000) == Some(Window(2, 20200))
  {
    NextWindow([0], 9500, 10000, Some(Window(1, 10000)), Window(2, 10000));
    NextWindow([0] + [9500], 10200, 10000, Some(Window(2, 10000)), Window(1, 20200));
    NextWindow([0] + [9500] + [10200], 10500, 10000, Some(Window(1, 20200)), Window(2, 20200));
  }

  /** The seconds left, rounded to the nearest. */
  function NearestSeconds(w: Window, now: nat): nat
    requires now <= w.expiresAt
  {
    (w.expiresAt - now + 500) / 1000
  }

  /** With 1.4 s left, rounding to the nearest second announces 1 s; the retry then is rejected with no hit in between. */
  lemma NearestRoundingIsTooEarly()
    ensures WindowAfter([0] + [8600], 10000) == Some(Window(2, 10000)) && NearestSeconds(Window(2, 10000), 8600) == 1
    ensures WindowAfter([0] + [8600] + [9600], 10000) == Some(Window(3, 10000))
  {
    NextWindow([0], 8600, 10000, Some(Window(1, 10000)), Window(2, 10000));
    NextWindow([0] + [8600], 9600, 10000, Some(Window(2, 10000)), Window(3, 10000));
  }
}
