/**
 The limiter of ICMP responses: a counter that starts again when its window is a second
 old.
 */
module RateLimiter {

  type Time = nat

  /** One second, in nanoseconds. */
  const SECOND := 1_000_000_000

  datatype Limiter = Limiter(max: nat, count: nat, start: Time) {
    /** A window that is a second old gives way to one that starts now. */
    function Rolled(now: Time): Limiter {
      if now - start >= SECOND then Limiter(max, 0, now) else this
    }

    predicate Grants(now: Time) {
      max != 0 && Rolled(now).count < max
    }

    function Next(now: Time): (l: Limiter)
      ensures l.max == max
    {
      if max == 0 then this
      else if Grants(now) then Rolled(now).(count := Rolled(now).count + 1)
      else Rolled(now)
    }
  }

  class IcmpRateLimiter {
    const maxPerSecond: nat
    var count: nat
    var windowStart: Time

    function State(): Limiter
      reads this
    {
      Limiter(maxPerSecond, count, windowStart)
    }

    constructor (max: nat, now: Time)
      ensures State() == Limiter(max, 0, now)
    {
      maxPerSecond, count, windowStart := max, 0, now;
    }

    method Allow(now: Time) returns (ok: bool)
      modifies this
      ensures ok == old(State()).Grants(now) && State() == old(State()).Next(now)
    {
      if maxPerSecond == 0 {
        return false;
      }
      if now - windowStart >= SECOND {
        count := 0;
        windowStart := now;
      }
      if count < maxPerSecond {
        count := count + 1;
        return true;
      } else {
        return false;
      }
    }
  }

  // ----- whole runs -----

  /** The limiter after requests at the given times. */
  function After(l: Limiter, times: seq<Time>): (r: Limiter)
    ensures r.max == l.max
  {
    if times == [] then l else After(l, times[..|times| - 1]).Next(times[|times| - 1])
  }

  /** How many of the requests in the second, of a thousand million nanoseconds, that starts at
      `from` are granted. */
  function Granted(l: Limiter, times: seq<Time>, from: Time): nat {
    if times == [] then 0
    else
      var (init, t) := (times[..|times| - 1], times[|times| - 1]);
      Granted(l, init, from) + if from <= t < from + 1_000_000_000 && After(l, init).Grants(t) then 1 else 0
  }

  /** Timestamps that never go back, none before the limiter was made. */
  ghost predicate Monotone(l: Limiter, times: seq<Time>) {
    && (forall i | 0 <= i < |times| :: l.start <= times[i])
    && (forall i, j | 0 <= i < j < |times| :: times[i] <= times[j])
  }

  function Last(l: Limiter, times: seq<Time>): Time {
    if times == [] then l.start else times[|times| - 1]
  }

  /** The counter never passes the limit, and the window starts at a time already seen. */
  lemma {:induction false} AfterBounds(l: Limiter, times: seq<Time>)
    requires l.count <= l.max && Monotone(l, times)
    ensures var r := After(l, times);
            r.count <= r.max && r.start <= Last(l, times)
  {
    if times != [] {
      AfterBounds(l, times[..|times| - 1]);
    }
  }

  /** What is known of the grants in a span after a request at `last`: there are none
      before the span; while the window began before it they are counted; a window that
      began in it adds at most the limit of its predecessor. */
  predicate SpanBound(r: Limiter, granted: nat, from: Time, last: Time) {
    && (last < from ==> granted == 0)
    && (r.start < from ==> granted <= r.count)
    && (from <= r.start < from + SECOND ==> granted <= r.max + r.count)
    && granted <= 2 * r.max
  }

  lemma {:induction false} SpanBoundHolds(l: Limiter, times: seq<Time>, from: Time)
    requires l.count <= l.max && Monotone(l, times)
    ensures SpanBound(After(l, times), Granted(l, times, from), from, Last(l, times))
  {
    if times != [] {
      var init := times[..|times| - 1];
      SpanBoundHolds(l, init, from);
      AfterBounds(l, init);
      SpanBoundStep(After(l, init), Granted(l, init, from), from, Last(l, init), times[|times| - 1]);
    }
  }

  lemma SpanBoundStep(r: Limiter, granted: nat, from: Time, last: Time, now: Time)
    requires SpanBound(r, granted, from, last) && r.count <= r.max && r.start <= last <= now
    ensures SpanBound(r.Next(now), granted + if from <= now < from + SECOND && r.Grants(now) then 1 else 0, from, now)
  {
  }

  /** The rate bound: in every run with timestamps that never go back, any half-open span of
      one second holds at most twice the limit of grants. */
  lemma RateBound(l: Limiter, times: seq<Time>, from: Time)
    requires l.count <= l.max && Monotone(l, times)
    ensures Granted(l, times, from) <= 2 * l.max
  {
    SpanBoundHolds(l, times, from);
  }

  /** `n` requests at the same time. */
  function Burst(n: nat, t: Time): seq<Time> {
    if n == 0 then [] else Burst(n - 1, t) + [t]
  }

  lemma {:induction false} BurstFacts(n: nat, t: Time)
    ensures |Burst(n, t)| == n && forall x | x in Burst(n, t) :: x == t
  {
    if 0 < n {
      BurstFacts(n - 1, t);
    }
  }

  lemma OneMore(l: Limiter, times: seq<Time>, t: Time, from: Time)
    ensures After(l, times + [t]) == After(l, times).Next(t)
    ensures Granted(l, times + [t], from) ==
            Granted(l, times, from) + if from <= t < from + SECOND && After(l, times).Grants(t) then 1 else 0
  {
    assert (times + [t])[..|times|] == times;
  }

  /** A burst within a window is granted as far as the limit goes. */
  lemma {:induction false} BurstGranted(l: Limiter, times: seq<Time>, n: nat, t: Time, from: Time)
    requires After(l, times).Rolled(t).count + n <= l.max && from <= t < from + SECOND
    ensures Granted(l, times + Burst(n, t), from) == Granted(l, times, from) + n
    ensures var r := After(l, times).Rolled(t);
            After(l, times + Burst(n, t)).Rolled(t) == r.(count := r.count + n)
  {
    if n == 0 {
      assert times + Burst(n, t) == times;
    } else {
      BurstGranted(l, times, n - 1, t, from);
      assert times + Burst(n, t) == (times + Burst(n - 1, t)) + [t];
      OneMoreGrant(l, times + Burst(n - 1, t), t, from);
    }
  }

  lemma GrantStep(r: Limiter, t: Time)
    requires r.Rolled(t).count < r.max
    ensures r.Grants(t) && r.Next(t).Rolled(t) == r.Rolled(t).(count := r.Rolled(t).count + 1)
  {
  }

  lemma OneMoreGrant(l: Limiter, times: seq<Time>, t: Time, from: Time)
    requires After(l, times).Rolled(t).count < l.max && from <= t < from + SECOND
    ensures Granted(l, times + [t], from) == Granted(l, times, from) + 1
    ensures var r := After(l, times).Rolled(t); After(l, times + [t]).Rolled(t) == r.(count := r.count + 1)
  {
    OneMore(l, times, t, from);
    GrantStep(After(l, times), t);
  }

  lemma RolledLater(r: Limiter, t: Time, u: Time)
    requires r.Rolled(t).start + SECOND <= u && r.start <= t <= u
    ensures r.Rolled(u) == Limiter(r.max, 0, u)
  {
  }

  /** For every positive limit the factor two is reached: a burst at the end of one window and
      one at the start of the next. */
  lemma RateBoundIsTight(max: nat)
    requires 0 < max
    ensures var l := Limiter(max, 0, 0);
            var times := Burst(max, SECOND - 1) + Burst(max, SECOND);
            Monotone(l, times) && Granted(l, times, SECOND - 1) == 2 * max
  {
    var l := Limiter(max, 0, 0);
    var first, second := Burst(max, SECOND - 1), Burst(max, SECOND);
    assert After(l, []) == l && Granted(l, [], SECOND - 1) == 0 && [] + first == first;
    TwoBurstsMonotone(l, max);
    BurstGranted(l, [], max, SECOND - 1, SECOND - 1);
    AfterBounds(l, first);
    RolledLater(After(l, first), SECOND - 1, SECOND);
    BurstGranted(l, first, max, SECOND, SECOND - 1);
  }

  lemma TwoBurstsMonotone(l: Limiter, n: nat)
    requires l.start == 0
    ensures Monotone(l, Burst(n, SECOND - 1)) && Monotone(l, Burst(n, SECOND - 1) + Burst(n, SECOND))
    ensures 0 < n ==> Last(l, Burst(n, SECOND - 1)) == SECOND - 1
  {
    var first, second := Burst(n, SECOND - 1), Burst(n, SECOND);
    BurstFacts(n, SECOND - 1);
    BurstFacts(n, SECOND);
    assert forall i | 0 <= i < n :: first[i] in first && second[i] in second;
  }

  /** Request number `i` starts a window although a request in the span has been granted. */
  predicate RestartsAt(l: Limiter, times: seq<Time>, from: Time, i: nat)
    requires i < |times|
  {
    0 < Granted(l, times[..i], from) && After(l, times[..i]).Rolled(times[i]) != After(l, times[..i])
  }

  /** Without such a request in the span, it holds at most the limit: the second half of the
      bound is only ever used up by a window that starts after a grant. */
  lemma {:induction false} OneWindowBound(l: Limiter, times: seq<Time>, from: Time)
    requires l.count <= l.max && Monotone(l, times)
    requires forall i | 0 <= i < |times| && times[i] < from + SECOND :: !RestartsAt(l, times, from, i)
    ensures Granted(l, times, from) <= l.max
    ensures 0 < Granted(l, times, from) && After(l, times).start < from + SECOND ==>
              Granted(l, times, from) <= After(l, times).count
  {
    if times != [] {
      var n := |times| - 1;
      var init := times[..n];
      forall i | 0 <= i < n && init[i] < from + SECOND
        ensures !RestartsAt(l, init, from, i)
      {
        assert init[..i] == times[..i];
        assert !RestartsAt(l, times, from, i);
      }
      OneWindowBound(l, init, from);
      AfterBounds(l, init);
      if times[n] < from + SECOND {
        assert !RestartsAt(l, times, from, n);
      }
      OneWindowStep(After(l, init), Granted(l, init, from), from, times[n]);
    }
  }

  lemma OneWindowStep(r: Limiter, granted: nat, from: Time, now: Time)
    requires r.count <= r.max && r.start <= now && granted <= r.max
    requires 0 < granted && r.start < from + SECOND ==> granted <= r.count
    requires now < from + SECOND && 0 < granted ==> r.Rolled(now) == r
    ensures var g := granted + if from <= now < from + SECOND && r.Grants(now) then 1 else 0;
            g <= r.max && (0 < g && r.Next(now).start < from + SECOND ==> g <= r.Next(now).count)
  {
  }

  /** How many of the requests come before `end`. */
  function Requests(times: seq<Time>, end: Time): nat {
    if times == [] then 0 else Requests(times[..|times| - 1], end) + if times[|times| - 1] < end then 1 else 0
  }

  function Min(a: nat, b: nat): nat {
    if a < b then a else b
  }

  lemma {:induction false} RunOn(l: Limiter, a: seq<Time>, b: seq<Time>, from: Time)
    ensures After(l, a + b) == After(After(l, a), b)
    ensures Granted(l, a + b, from) == Granted(l, a, from) + Granted(After(l, a), b, from)
  {
    if b == [] {
      assert a + b == a;
    } else {
      assert (a + b)[..|a + b| - 1] == a + b[..|b| - 1];
      RunOn(l, a, b[..|b| - 1], from);
    }
  }

  /** A window that starts within the second outlasts it: it grants what it has left to the
      requests that still come in the second. */
  lemma {:induction false} WindowGrants(r: Limiter, times: seq<Time>, from: Time)
    requires from <= r.start < from + SECOND && r.count <= r.max && Monotone(r, times)
    ensures Granted(r, times, from) == Min(r.max - r.count, Requests(times, from + SECOND))
    ensures var u := After(r, times);
            Last(r, times) < from + SECOND ==> u.start == r.start && u.count == r.count + Granted(r, times, from)
  {
    if times != [] {
      var init := times[..|times| - 1];
      WindowGrants(r, init, from);
      WindowStep(After(r, init), r, Granted(r, init, from), from, Last(r, init), times[|times| - 1]);
    }
  }

  lemma WindowStep(u: Limiter, r: Limiter, granted: nat, from: Time, last: Time, now: Time)
    requires from <= r.start <= last <= now && u.max == r.max && r.count + granted <= r.max
    requires last < from + SECOND ==> u.start == r.start && u.count == r.count + granted
    ensures var g := granted + if from <= now < from + SECOND && u.Grants(now) then 1 else 0;
            && g == (if now < from + SECOND then Min(r.max - r.count, granted + 1) else granted)
            && (now < from + SECOND ==> u.Next(now).start == r.start && u.Next(now).count == r.count + g)
  {
  }

  lemma MonotoneTail(l: Limiter, times: seq<Time>, i: nat)
    requires l.count <= l.max && Monotone(l, times) && i < |times|
    requires After(l, times[..i]).Rolled(times[i]) != After(l, times[..i])
    ensures var r := After(l, times[..i]).Rolled(times[i]);
            r.start == times[i] && r.count == 0 && Monotone(r, times[i..])
  {
  }

  lemma SpanHasGrant(l: Limiter, times: seq<Time>, from: Time, i: nat)
    requires l.count <= l.max && Monotone(l, times) && i < |times| && 0 < Granted(l, times[..i], from)
    ensures from <= times[i] && 0 < l.max
  {
    RateBound(l, times[..i], from);
    SpanBoundHolds(l, times[..i], from);
    if i > 0 {
      assert times[..i][i - 1] == times[i - 1];
    }
  }

  /** A limiter whose window is over answers like one whose window starts at the request. */
  lemma {:induction false} RolledRunsAlike(r: Limiter, times: seq<Time>, from: Time)
    requires times != [] && 0 < r.max
    ensures After(r, times) == After(r.Rolled(times[0]), times)
    ensures Granted(r, times, from) == Granted(r.Rolled(times[0]), times, from)
  {
    var init := times[..|times| - 1];
    if init != [] {
      RolledRunsAlike(r, init, from);
    }
  }

  /** How many grants a second holds in which a window starts after a grant: those before it,
      and the requests from it to the end of the second as far as the limit goes. */
  lemma RestartedSecond(l: Limiter, times: seq<Time>, from: Time, i: nat)
    requires l.count <= l.max && Monotone(l, times) && i < |times|
    requires RestartsAt(l, times, from, i) && times[i] < from + SECOND
    ensures Granted(l, times, from) ==
            Granted(l, times[..i], from) + Min(l.max, Requests(times[i..], from + SECOND))
  {
    var r := After(l, times[..i]);
    SpanHasGrant(l, times, from, i);
    MonotoneTail(l, times, i);
    assert times == times[..i] + times[i..];
    RunOn(l, times[..i], times[i..], from);
    RolledRunsAlike(r, times[i..], from);
    WindowGrants(r.Rolled(times[i]), times[i..], from);
  }

  /** Such a request leaves room in the second for itself and all that follow. */
  predicate LeavesRoom(l: Limiter, times: seq<Time>, from: Time, i: nat)
    requires i < |times|
  {
    RestartsAt(l, times, from, i) && times[i] < from + SECOND ==>
      Granted(l, times[..i], from) + Requests(times[i..], from + SECOND) <= l.max
  }

  /** Exactly when a second holds at most the limit, whatever the requests. */
  lemma SecondWithinLimitExactly(l: Limiter, times: seq<Time>, from: Time)
    requires l.count <= l.max && Monotone(l, times)
    ensures Granted(l, times, from) <= l.max <==> forall i: nat | i < |times| :: LeavesRoom(l, times, from, i)
  {
    if i: nat :| i < |times| && times[i] < from + SECOND && RestartsAt(l, times, from, i) {
      RestartedSecond(l, times, from, i);
      forall j: nat | j < |times|
        ensures RestartsAt(l, times, from, j) && times[j] < from + SECOND ==>
                  (LeavesRoom(l, times, from, j) <==> Granted(l, times, from) <= l.max)
      {
        if RestartsAt(l, times, from, j) && times[j] < from + SECOND {
          RestartedSecond(l, times, from, j);
        }
      }
    } else {
      OneWindowBound(l, times, from);
    }
  }

  /** How many requests are granted out of the window that starts at `start`. */
  function GrantedInWindow(l: Limiter, times: seq<Time>, start: Time): nat {
    if times == [] then 0
    else
      var (init, t) := (times[..|times| - 1], times[|times| - 1]);
      GrantedInWindow(l, init, start) +
        if After(l, times).start == start && After(l, init).Grants(t) then 1 else 0
  }

  /** One window grants at most the limit, and the counter says how many the current one
      has granted. */
  lemma {:induction false} WindowBound(l: Limiter, times: seq<Time>, start: Time)
    requires l.count == 0 && Monotone(l, times)
    ensures GrantedInWindow(l, times, start) <= l.max
    ensures start == After(l, times).start ==> GrantedInWindow(l, times, start) == After(l, times).count
    ensures After(l, times).start < start ==> GrantedInWindow(l, times, start) == 0
  {
    if times != [] {
      var init := times[..|times| - 1];
      WindowBound(l, init, start);
      AfterBounds(l, init);
    }
  }

  lemma {:induction false} CountIsGranted(l: Limiter, times: seq<Time>)
    requires l.count == 0 && Monotone(l, times)
    ensures var r := After(l, times); r.count <= Granted(l, times, r.start)
  {
    if times != [] {
      var init := times[..|times| - 1];
      CountIsGranted(l, init);
      AfterBounds(l, init);
    }
  }

  /** Nothing is refused without reason: a refused request lies within a second after the
      start of a span in which the whole limit has been granted. */
  lemma RefusalIsEarned(l: Limiter, times: seq<Time>, now: Time)
    requires l.count == 0 && Monotone(l, times + [now]) && !After(l, times).Grants(now)
    ensures var from := After(l, times).start;
            l.max > 0 ==> from <= now < from + 1_000_000_000 && l.max <= Granted(l, times, from)
  {
    assert (times + [now])[..|times|] == times;
    CountIsGranted(l, times);
    AfterBounds(l, times);
    assert now == (times + [now])[|times|];
    if times != [] {
      assert times[|times| - 1] == (times + [now])[|times| - 1];
    }
  }
}
