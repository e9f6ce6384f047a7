/**
  The fixed-window rate limiter: one bucket per key, opened by the first request after
  the previous window has run out. Times are ticks of a monotonic clock.
 */
module RateLimiting {
  import opened Common

  datatype Bucket = Bucket(count: nat, windowStart: nat)

  /** Limit and window length, fixed for a run. */
  datatype Policy = Policy(max: nat, window: nat)

  datatype Decision = Decision(admitted: bool, bucket: Bucket)

  /** Instant::duration_since saturates at zero. */
  function Elapsed(now: nat, start: nat): nat {
    if now >= start then now - start else 0
  }

  function Decide(p: Policy, b: Option<Bucket>, now: nat): Decision {
    match b
    case None => Decision(true, Bucket(1, now))
    case Some(bucket) =>
      if Elapsed(now, bucket.windowStart) > p.window then Decision(true, Bucket(1, now))
      else if bucket.count >= p.max then Decision(false, bucket)
      else Decision(true, bucket.(count := bucket.count + 1))
  }

  // ----- one key --------------------------------------------------------------------

  /** The bucket after a sequence of requests, and the times of those admitted. */
  datatype History = History(bucket: Option<Bucket>, admitted: seq<nat>)

  function Step(p: Policy, h: History, now: nat): History {
    var d := Decide(p, h.bucket, now);
    History(Some(d.bucket), if d.admitted then h.admitted + [now] else h.admitted)
  }

  function After(p: Policy, times: seq<nat>): History {
    if times == [] then History(None, []) else Step(p, After(p, times[..|times| - 1]), times[|times| - 1])
  }

  /** How many of `times` lie in the closed interval [lo, hi]. */
  function CountIn(times: seq<nat>, lo: int, hi: int): nat {
    if times == [] then 0
    else CountIn(times[..|times| - 1], lo, hi) + (if lo <= times[|times| - 1] <= hi then 1 else 0)
  }

  lemma CountSnoc(times: seq<nat>, t: nat, lo: int, hi: int)
    ensures CountIn(times + [t], lo, hi) == CountIn(times, lo, hi) + if lo <= t <= hi then 1 else 0
  {
    assert (times + [t])[..|times|] == times;
  }

  lemma {:induction false} CountSplits(times: seq<nat>, lo: int, mid: int, hi: int)
    requires lo <= mid + 1 && mid <= hi
    ensures CountIn(times, lo, hi) == CountIn(times, lo, mid) + CountIn(times, mid + 1, hi)
  {
    if times != [] {
      CountSplits(times[..|times| - 1], lo, mid, hi);
    }
  }

  lemma {:induction false} CountGrows(times: seq<nat>, lo: int, hi: int, lo': int, hi': int)
    requires lo' <= lo && hi <= hi'
    ensures CountIn(times, lo, hi) <= CountIn(times, lo', hi')
  {
    if times != [] {
      CountGrows(times[..|times| - 1], lo, hi, lo', hi');
    }
  }

  /** Admissions in the closed interval of length `window` from `lo`. */
  function Burst(times: seq<nat>, lo: int, window: nat): nat {
    CountIn(times, lo, lo + window)
  }

  function CountBefore(times: seq<nat>, lo: int, end: int): nat {
    CountIn(times, lo, end - 1)
  }

  ghost predicate NonDecreasing(times: seq<nat>) {
    forall i, j :: 0 <= i < j < |times| ==> times[i] <= times[j]
  }

  /**
    Against the current window [s, s + W]: the admitted requests since its opening number
    exactly `count`, its opener is one of them, and any interval of length W that reaches
    back across the opening holds at most max - 1 admissions from before it.
   */
  ghost predicate Inv(p: Policy, h: History, latest: nat) {
    match h.bucket
    case None => h.admitted == []
    case Some(Bucket(c, s)) =>
      && 1 <= c <= p.max && s <= latest
      && CountIn(h.admitted, s, latest) == c
      && CountIn(h.admitted, s, s) >= 1
      && (forall i :: 0 <= i < |h.admitted| ==> h.admitted[i] <= s + p.window && h.admitted[i] <= latest)
      && (forall lo: int :: lo + p.window >= s ==> CountBefore(h.admitted, lo, s) <= p.max - 1)
      && (forall lo: int :: Burst(h.admitted, lo, p.window) <= 2 * p.max - 1)
  }

  lemma {:induction false} NoneBeyond(times: seq<nat>, lo: int, hi: int)
    requires forall i :: 0 <= i < |times| ==> times[i] < lo
    ensures CountIn(times, lo, hi) == 0
  {
    if times != [] {
      NoneBeyond(times[..|times| - 1], lo, hi);
    }
  }

  lemma {:induction false} CapAt(times: seq<nat>, lo: int, cap: int, hi: int)
    requires (forall i :: 0 <= i < |times| ==> times[i] <= cap) && cap <= hi
    ensures CountIn(times, lo, hi) == CountIn(times, lo, cap)
  {
    if times != [] {
      CapAt(times[..|times| - 1], lo, cap, hi);
    }
  }

  /** Once a window has run out, any interval that reaches back across the next opening misses its opener. */
  lemma BeforeOpening(p: Policy, h: History, latest: nat, now: nat, lo: int)
    requires Inv(p, h, latest) && latest <= now && lo + p.window >= now
    requires h.bucket.Some? && Elapsed(now, h.bucket.value.windowStart) > p.window
    ensures CountBefore(h.admitted, lo, now) <= p.max - 1
  {
    var s: int := h.bucket.value.windowStart;
    var far := if now - 1 >= latest then now - 1 else latest;
    CapAt(h.admitted, s + 1, latest, far);
    CountGrows(h.admitted, lo, now - 1, s + 1, far);
    CountSplits(h.admitted, s, s, latest);
  }

  lemma OpeningBurst(p: Policy, admitted: seq<nat>, now: nat, lo: int)
    requires forall i :: 0 <= i < |admitted| ==> admitted[i] < now
    requires Burst(admitted, lo, p.window) <= 2 * p.max - 1
    requires p.max >= 1 && (lo + p.window >= now ==> CountBefore(admitted, lo, now) <= p.max - 1)
    ensures Burst(admitted + [now], lo, p.window) <= 2 * p.max - 1
  {
    CountSnoc(admitted, now, lo, lo + p.window);
    if lo <= now <= lo + p.window {
      CountSplits(admitted, lo, now - 1, lo + p.window);
      NoneBeyond(admitted, now, lo + p.window);
    }
  }

  lemma OpenWindow(p: Policy, h: History, latest: nat, now: nat)
    requires p.max >= 1 && Inv(p, h, latest) && latest <= now
    requires h.bucket.Some? && Elapsed(now, h.bucket.value.windowStart) > p.window
    ensures Inv(p, Step(p, h, now), now)
  {
    var h' := Step(p, h, now);
    assert h' == History(Some(Bucket(1, now)), h.admitted + [now]);
    NoneBeyond(h.admitted, now, now);
    CountSnoc(h.admitted, now, now, now);
    forall lo: int | lo + p.window >= now ensures CountBefore(h'.admitted, lo, now) <= p.max - 1 {
      BeforeOpening(p, h, latest, now, lo);
      CountSnoc(h.admitted, now, lo, now - 1);
    }
    forall lo: int ensures Burst(h'.admitted, lo, p.window) <= 2 * p.max - 1 {
      if lo + p.window >= now {
        BeforeOpening(p, h, latest, now, lo);
      }
      OpeningBurst(p, h.admitted, now, lo);
    }
  }

  lemma ContinuingBurst(p: Policy, h: History, latest: nat, now: nat, lo: int)
    requires p.max >= 1 && Inv(p, h, latest) && latest <= now && h.bucket.Some? && h.bucket.value.count < p.max
    ensures Burst(h.admitted + [now], lo, p.window) <= 2 * p.max - 1
  {
    var s: int := h.bucket.value.windowStart;
    var far := lo + p.window;
    CountSnoc(h.admitted, now, lo, far);
    assert Burst(h.admitted, lo, p.window) <= 2 * p.max - 1;
    if lo <= now <= far {
      CapAt(h.admitted, s, latest, far);
      if lo <= s {
        assert CountBefore(h.admitted, lo, s) <= p.max - 1;
        CountSplits(h.admitted, lo, s - 1, far);
      } else {
        CountGrows(h.admitted, lo, far, s, far);
      }
    }
  }

  lemma ContinueWindow(p: Policy, h: History, latest: nat, now: nat)
    requires p.max >= 1 && Inv(p, h, latest) && latest <= now
    requires h.bucket.Some? && Elapsed(now, h.bucket.value.windowStart) <= p.window && h.bucket.value.count < p.max
    ensures Inv(p, Step(p, h, now), now)
  {
    var s: int := h.bucket.value.windowStart;
    var h' := Step(p, h, now);
    assert h'.admitted == h.admitted + [now];
    CapAt(h.admitted, s, latest, now);
    CountSnoc(h.admitted, now, s, now);
    CountSnoc(h.admitted, now, s, s);
    forall lo: int | lo + p.window >= s ensures CountBefore(h'.admitted, lo, s) <= p.max - 1 {
      assert CountBefore(h.admitted, lo, s) <= p.max - 1;
      CountSnoc(h.admitted, now, lo, s - 1);
    }
    forall lo: int ensures Burst(h'.admitted, lo, p.window) <= 2 * p.max - 1 {
      ContinuingBurst(p, h, latest, now, lo);
    }
  }

  lemma FirstRequest(p: Policy, now: nat)
    requires p.max >= 1
    ensures Inv(p, Step(p, History(None, []), now), now)
  {
    var h' := Step(p, History(None, []), now);
    assert [] + [now] == [now];
    forall lo: int, hi: int ensures CountIn([now], lo, hi) == if lo <= now <= hi then 1 else 0 {
      CountSnoc([], now, lo, hi);
    }
    forall lo: int ensures Burst(h'.admitted, lo, p.window) <= 2 * p.max - 1 {
      CountSnoc([], now, lo, lo + p.window);
    }
  }

  lemma Refused(p: Policy, h: History, latest: nat, now: nat)
    requires p.max >= 1 && Inv(p, h, latest) && latest <= now
    requires h.bucket.Some? && Elapsed(now, h.bucket.value.windowStart) <= p.window && h.bucket.value.count >= p.max
    ensures Inv(p, Step(p, h, now), now)
  {
    CapAt(h.admitted, h.bucket.value.windowStart, latest, now);
  }

  lemma {:induction false} RunsKeepInv(p: Policy, times: seq<nat>)
    requires p.max >= 1 && NonDecreasing(times)
    ensures Inv(p, After(p, times), if times == [] then 0 else times[|times| - 1])
  {
    if times != [] {
      var init, now := times[..|times| - 1], times[|times| - 1];
      var latest := if init == [] then 0 else init[|init| - 1];
      RunsKeepInv(p, init);
      var h := After(p, init);
      if h.bucket.None? {
        FirstRequest(p, now);
      } else if Elapsed(now, h.bucket.value.windowStart) > p.window {
        OpenWindow(p, h, latest, now);
      } else if h.bucket.value.count < p.max {
        ContinueWindow(p, h, latest, now);
      } else {
        Refused(p, h, latest, now);
      }
    }
  }

  /** A limit of 0 acts as a limit of 1: the request that opens a window is not checked. */
  function Effective(p: Policy): Policy {
    p.(max := if p.max == 0 then 1 else p.max)
  }

  lemma {:induction false} ActsAsEffective(p: Policy, times: seq<nat>)
    ensures After(p, times) == After(Effective(p), times)
    ensures After(p, times).bucket.Some? ==> After(p, times).bucket.value.count >= 1
  {
    if times != [] {
      ActsAsEffective(p, times[..|times| - 1]);
    }
  }

  /** Since its opening the current window admitted exactly `count` requests, at most `max`. */
  lemma WindowAdmitsAtMostMax(p: Policy, times: seq<nat>)
    requires NonDecreasing(times) && times != []
    ensures var h := After(p, times);
            && h.bucket.Some? && h.bucket.value.count <= Effective(p).max
            && CountIn(h.admitted, h.bucket.value.windowStart, times[|times| - 1]) == h.bucket.value.count
  {
    ActsAsEffective(p, times);
    RunsKeepInv(Effective(p), times);
    assert After(p, times).bucket.Some?;
  }

  /** The current window is not over and has admitted its limit already. */
  ghost predicate Full(p: Policy, h: History, now: nat) {
    && h.bucket.Some? && now <= h.bucket.value.windowStart + p.window
    && CountIn(h.admitted, h.bucket.value.windowStart, now) == p.max
  }

  lemma FullIsRefused(p: Policy, h: History, latest: nat, now: nat)
    requires Inv(p, h, latest) && latest <= now && h.bucket.Some?
    ensures Step(p, h, now).admitted == if Full(p, h, now) then h.admitted else h.admitted + [now]
  {
    CapAt(h.admitted, h.bucket.value.windowStart, latest, now);
  }

  lemma AfterSnoc(p: Policy, times: seq<nat>, now: nat)
    ensures After(p, times + [now]) == Step(p, After(p, times), now)
  {
    assert (times + [now])[..|times|] == times;
  }

  /** A request is refused exactly when the current window is full. */
  lemma RefusedIff(p: Policy, times: seq<nat>, now: nat)
    requires NonDecreasing(times) && times != [] && times[|times| - 1] <= now
    ensures var h := After(p, times);
            After(p, times + [now]).admitted == if Full(Effective(p), h, now) then h.admitted else h.admitted + [now]
  {
    var q := Effective(p);
    ActsAsEffective(p, times);
    ActsAsEffective(p, times + [now]);
    RunsKeepInv(q, times);
    AfterSnoc(q, times, now);
    FullIsRefused(q, After(q, times), times[|times| - 1], now);
  }

  /** Any closed interval of one window length admits at most 2 max - 1 requests, at most 1 for a limit of 0. */
  lemma BurstIsBounded(p: Policy, times: seq<nat>, lo: int)
    requires NonDecreasing(times)
    ensures Burst(After(p, times).admitted, lo, p.window) <= 2 * Effective(p).max - 1
  {
    ActsAsEffective(p, times);
    RunsKeepInv(Effective(p), times);
  }

  /** A request more than a window after the opening is always admitted and opens the next window. */
  lemma LateRequestIsAdmitted(p: Policy, times: seq<nat>, now: nat)
    requires times != [] && now > After(p, times).bucket.value.windowStart + p.window
    ensures After(p, times + [now]) == History(Some(Bucket(1, now)), After(p, times).admitted + [now])
  {
    assert (times + [now])[..|times|] == times;
  }

  // ----- the bound is reached -----------------------------------------------------------

  function Repeat(t: nat, n: nat): seq<nat> {
    seq(n, _ => t)
  }

  /** A request within the window is admitted and counted as long as there is room. */
  lemma EarlyRequestIsCounted(p: Policy, times: seq<nat>, t: nat)
    requires After(p, times).bucket.Some?
    requires var b := After(p, times).bucket.value; b.windowStart <= t <= b.windowStart + p.window && b.count < p.max
    ensures var h := After(p, times);
            var b := h.bucket.value;
            After(p, times + [t]) == History(Some(Bucket(b.count + 1, b.windowStart)), h.admitted + [t])
  {
    assert (times + [t])[..|times|] == times;
  }

  lemma {:induction false} FillWindow(p: Policy, times: seq<nat>, t: nat, n: nat)
    requires After(p, times).bucket.Some?
    requires var b := After(p, times).bucket.value;
             b.windowStart <= t <= b.windowStart + p.window && b.count + n <= p.max
    ensures var b := After(p, times).bucket.value;
            After(p, times + Repeat(t, n)) ==
            History(Some(Bucket(b.count + n, b.windowStart)), After(p, times).admitted + Repeat(t, n))
  {
    if n == 0 {
      assert times + Repeat(t, 0) == times && After(p, times).admitted + Repeat(t, 0) == After(p, times).admitted;
    } else {
      FillWindow(p, times, t, n - 1);
      assert Repeat(t, n) == Repeat(t, n - 1) + [t];
      assert times + Repeat(t, n) == (times + Repeat(t, n - 1)) + [t];
      EarlyRequestIsCounted(p, times + Repeat(t, n - 1), t);
      assert After(p, times).admitted + Repeat(t, n - 1) + [t] == After(p, times).admitted + Repeat(t, n);
    }
  }

  lemma {:induction false} CountRepeat(times: seq<nat>, t: nat, n: nat, lo: int, hi: int)
    ensures CountIn(times + Repeat(t, n), lo, hi) == CountIn(times, lo, hi) + if lo <= t <= hi then n else 0
  {
    if n == 0 {
      assert times + Repeat(t, 0) == times;
    } else {
      CountRepeat(times, t, n - 1, lo, hi);
      assert times + Repeat(t, n) == (times + Repeat(t, n - 1)) + [t];
      CountSnoc(times + Repeat(t, n - 1), t, lo, hi);
    }
  }

  /** One request at 0, the rest of its window at W, a full window at W + 1. */
  function WorstCase(p: Policy): seq<nat>
    requires p.max >= 1
  {
    [0] + Repeat(p.window, p.max - 1) + [p.window + 1] + Repeat(p.window + 1, p.max - 1)
  }

  lemma WorstCaseIsTight(p: Policy)
    requires p.max >= 1 && p.window >= 1
    ensures NonDecreasing(WorstCase(p)) && Burst(After(p, WorstCase(p)).admitted, 1, p.window) == 2 * p.max - 1
  {
    WorstCaseIsAdmitted(p);
    WorstCaseCount(p);
    WorstCaseIsOrdered(p);
  }

  /** The bound is attained, for every limit and every positive window. */
  lemma BurstBoundIsTight(p: Policy) returns (times: seq<nat>)
    requires p.window >= 1
    ensures NonDecreasing(times) && Burst(After(p, times).admitted, 1, p.window) == 2 * Effective(p).max - 1
  {
    times := WorstCase(Effective(p));
    ActsAsEffective(p, times);
    WorstCaseIsTight(Effective(p));
  }

  lemma WorstCaseIsOrdered(p: Policy)
    requires p.max >= 1
    ensures NonDecreasing(WorstCase(p))
  {
    var times := WorstCase(p);
    assert |times| == 2 * p.max;
    forall i | 0 <= i < |times|
      ensures times[i] == if i == 0 then 0 else if i < p.max then p.window else p.window + 1
    {
    }
  }

  lemma FirstRequestOpens(p: Policy)
    ensures After(p, [0]) == History(Some(Bucket(1, 0)), [0])
  {
    AfterSnoc(p, [], 0);
    assert [] + [0] == [0];
  }

  lemma WindowFills(p: Policy, opening: seq<nat>)
    requires p.max >= 1 && After(p, opening) == History(Some(Bucket(1, 0)), opening)
    ensures var first := opening + Repeat(p.window, p.max - 1);
            After(p, first) == History(Some(Bucket(p.max, 0)), first)
  {
    FillWindow(p, opening, p.window, p.max - 1);
  }

  lemma NextWindowFills(p: Policy, first: seq<nat>, t: nat)
    requires p.max >= 1 && first != [] && t > p.window
    requires After(p, first) == History(Some(Bucket(p.max, 0)), first)
    ensures After(p, first + [t] + Repeat(t, p.max - 1)).admitted == first + [t] + Repeat(t, p.max - 1)
  {
    LateRequestIsAdmitted(p, first, t);
    FillWindow(p, first + [t], t, p.max - 1);
  }

  lemma WorstCaseIsAdmitted(p: Policy)
    requires p.max >= 1
    ensures After(p, WorstCase(p)).admitted == WorstCase(p)
  {
    FirstRequestOpens(p);
    WindowFills(p, [0]);
    NextWindowFills(p, [0] + Repeat(p.window, p.max - 1), p.window + 1);
  }

  lemma CountTwoBursts(opening: seq<nat>, t: nat, n: nat, lo: int, hi: int)
    requires lo <= t && t + 1 <= hi
    ensures CountIn(opening + Repeat(t, n) + [t + 1] + Repeat(t + 1, n), lo, hi) == CountIn(opening, lo, hi) + 2 * n + 1
  {
    var first := opening + Repeat(t, n);
    CountRepeat(opening, t, n, lo, hi);
    CountSnoc(first, t + 1, lo, hi);
    CountRepeat(first + [t + 1], t + 1, n, lo, hi);
  }

  lemma WorstCaseCount(p: Policy)
    requires p.max >= 1 && p.window >= 1
    ensures CountIn(WorstCase(p), 1, p.window + 1) == 2 * p.max - 1
  {
    assert CountIn([0], 1, p.window + 1) == 0 by { assert [0][..0] == []; }
    CountTwoBursts([0], p.window, p.max - 1, 1, p.window + 1);
  }

  // ----- many keys ------------------------------------------------------------------------

  datatype Request = Request(key: string, time: nat)

  datatype Limiter = Limiter(buckets: map<string, Bucket>, admitted: seq<Request>)

  function Lookup(buckets: map<string, Bucket>, key: string): Option<Bucket> {
    if key in buckets then Some(buckets[key]) else None
  }

  function Serve(p: Policy, l: Limiter, r: Request): Limiter {
    var d := Decide(p, Lookup(l.buckets, r.key), r.time);
    Limiter(l.buckets[r.key := d.bucket], if d.admitted then l.admitted + [r] else l.admitted)
  }

  function ServeAll(p: Policy, requests: seq<Request>): Limiter {
    if requests == [] then Limiter(map[], [])
    else Serve(p, ServeAll(p, requests[..|requests| - 1]), requests[|requests| - 1])
  }

  function TimesOf(requests: seq<Request>, key: string): seq<nat> {
    if requests == [] then []
    else
      var init, last := requests[..|requests| - 1], requests[|requests| - 1];
      if last.key == key then TimesOf(init, key) + [last.time] else TimesOf(init, key)
  }

  /** Keys do not affect one another: each key sees exactly the limiter run on its own requests. */
  lemma {:induction false} KeysAreIndependent(p: Policy, requests: seq<Request>, key: string)
    ensures View(ServeAll(p, requests), key) == After(p, TimesOf(requests, key))
  {
    if requests != [] {
      var init, r := requests[..|requests| - 1], requests[|requests| - 1];
      KeysAreIndependent(p, init, key);
      ServeOneKey(p, ServeAll(p, init), r, key);
      if r.key == key {
        assert TimesOf(requests, key)[..|TimesOf(init, key)|] == TimesOf(init, key);
      }
    }
  }

  function View(l: Limiter, key: string): History {
    History(Lookup(l.buckets, key), TimesOf(l.admitted, key))
  }

  lemma ServeOneKey(p: Policy, l: Limiter, r: Request, key: string)
    ensures View(Serve(p, l, r), key) == if r.key == key then Step(p, View(l, key), r.time) else View(l, key)
  {
    assert (l.admitted + [r])[..|l.admitted|] == l.admitted;
  }

  lemma {:induction false} TimesAreNonDecreasing(requests: seq<Request>, key: string)
    requires forall i, j :: 0 <= i < j < |requests| ==> requests[i].time <= requests[j].time
    ensures NonDecreasing(TimesOf(requests, key))
    ensures forall i :: 0 <= i < |TimesOf(requests, key)| ==>
              requests != [] && TimesOf(requests, key)[i] <= requests[|requests| - 1].time
  {
    if requests != [] {
      TimesAreNonDecreasing(requests[..|requests| - 1], key);
    }
  }

  /** Over every trace with a non-decreasing clock, no key is admitted more than 2 max - 1 times in a window length. */
  lemma EveryKeyIsBounded(p: Policy, requests: seq<Request>, key: string, lo: int)
    requires forall i, j :: 0 <= i < j < |requests| ==> requests[i].time <= requests[j].time
    ensures Burst(TimesOf(ServeAll(p, requests).admitted, key), lo, p.window) <= 2 * Effective(p).max - 1
  {
    KeysAreIndependent(p, requests, key);
    TimesAreNonDecreasing(requests, key);
    BurstIsBounded(p, TimesOf(requests, key), lo);
  }

  class RateLimiter {
    var buckets: map<string, Bucket>

    constructor ()
      ensures buckets == map[]
    {
      buckets := map[];
    }

    method CheckRateLimit(key: string, max: nat, window: nat, now: nat) returns (ok: bool)
      modifies this
      ensures var d := Decide(Policy(max, window), Lookup(old(buckets), key), now);
              ok == d.admitted && buckets == old(buckets)[key := d.bucket]
    {
      if key in buckets {
        var bucket := buckets[key];
        if Elapsed(now, bucket.windowStart) > window {
          buckets := buckets[key := Bucket(1, now)];
          return true;
        }
        if bucket.count >= max {
          return false;
        }
        buckets := buckets[key := bucket.(count := bucket.count + 1)];
        return true;
      }
      buckets := buckets[key := Bucket(1, now)];
      return true;
    }
  }
}
