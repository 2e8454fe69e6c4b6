/** The sliding-window limiter of the monitor relay (api/monitor_relay.py, boundary). */
module Limiter {
  import opened Prelude

  const WINDOW := 60.0
  const LIMIT: nat := 600

  /** Times after lo, in order. */
  function After(times: seq<real>, lo: real): seq<real> {
    if times == [] then []
    else if Last(times) > lo then After(Init(times), lo) + [Last(times)]
    else After(Init(times), lo)
  }

  predicate Nondecreasing(times: seq<real>) {
    forall i, j :: 0 <= i < j < |times| ==> times[i] <= times[j]
  }

  /** Deque contents and verdict for one arrival. */
  function Arrive(requests: seq<real>, now: real): (seq<real>, bool) {
    var live := After(requests, now - WINDOW);
    if |live| >= LIMIT then (live, false) else (live + [now], true)
  }

  /** The deque of one relay process; the ghost field records every arrival so far. */
  class SlidingWindow {
    var requests: seq<real>
    ghost var arrivals: seq<real>

    ghost predicate Valid()
      reads this
    {
      Nondecreasing(arrivals) && Nondecreasing(requests) && requests == Serve(arrivals).0
    }

    constructor ()
      ensures Valid() && arrivals == []
    {
      requests := [];
      arrivals := [];
    }

    /**
      Drop what has left the window, then admit or answer 429. The clock is monotonic, so `now` is
      not before any earlier arrival. Admitted exactly when fewer than 600 of the requests admitted
      so far lie in the window ending now.
    */
    method Admit(now: real) returns (admitted: bool)
      requires Valid() && AtMost(arrivals, now)
      modifies this
      ensures Valid() && arrivals == old(arrivals) + [now]
      ensures admitted <==> |InWindow(Serve(old(arrivals)).1, now)| < 600
      ensures Serve(arrivals).1 == Serve(old(arrivals)).1 + if admitted then [now] else []
    {
      ServeAnother(arrivals, now);
      hide Serve, InWindow;
      ghost var earlier := requests;
      while requests != [] && requests[0] <= now - WINDOW
        invariant Nondecreasing(requests)
        invariant After(requests, now - WINDOW) == After(earlier, now - WINDOW)
        invariant arrivals == old(arrivals)
        decreases |requests|
      {
        DropFirst(requests, now - WINDOW);
        requests := requests[1..];
      }
      AllLive(requests, now - WINDOW);
      arrivals := arrivals + [now];
      admitted := |requests| < LIMIT;
      if admitted {
        requests := requests + [now];
      }
      assert (requests, admitted) == Arrive(earlier, now);
    }
  }

  lemma {:induction false} DropFirst(times: seq<real>, lo: real)
    requires times != [] && times[0] <= lo
    ensures After(times, lo) == After(times[1..], lo)
  {
    if |times| > 1 {
      DropFirst(Init(times), lo);
      assert Init(times)[1..] == Init(times[1..]);
    }
  }

  lemma {:induction false} AllLive(times: seq<real>, lo: real)
    requires Nondecreasing(times) && (times == [] || times[0] > lo)
    ensures After(times, lo) == times
  {
    if times != [] {
      AllLive(Init(times), lo);
    }
  }

  // ---------------------------------------------------------------- whole arrival sequences

  /** Deque and admitted history after all arrivals. */
  function Serve(arrivals: seq<real>): (seq<real>, seq<real>) {
    if arrivals == [] then ([], []) else
    var (requests, admitted) := Serve(Init(arrivals));
    var now := Last(arrivals);
    var (next, ok) := Arrive(requests, now);
    (next, if ok then admitted + [now] else admitted)
  }

  /** Admitted requests in the half-open window (t - 60, t]. */
  function InWindow(times: seq<real>, t: real): seq<real> {
    if times == [] then []
    else if t - 60.0 < Last(times) <= t then InWindow(Init(times), t) + [Last(times)]
    else InWindow(Init(times), t)
  }

  lemma {:induction false} AfterAfter(times: seq<real>, a: real, b: real)
    requires a <= b
    ensures After(After(times, a), b) == After(times, b)
  {
    if times != [] {
      AfterAfter(Init(times), a, b);
      if Last(times) > a {
        assert Init(After(Init(times), a) + [Last(times)]) == After(Init(times), a);
      }
    }
  }

  lemma AfterSnoc(times: seq<real>, x: real, lo: real)
    ensures After(times + [x], lo) == After(times, lo) + if x > lo then [x] else []
  {
    assert Init(times + [x]) == times;
  }

  lemma InWindowSnoc(times: seq<real>, x: real, t: real)
    ensures InWindow(times + [x], t) == InWindow(times, t) + if t - WINDOW < x <= t then [x] else []
  {
    assert Init(times + [x]) == times;
  }

  lemma {:induction false} WindowWithin(times: seq<real>, t: real, lo: real)
    requires lo <= t - WINDOW
    ensures |InWindow(times, t)| <= |After(times, lo)|
  {
    if times != [] {
      WindowWithin(Init(times), t, lo);
    }
  }

  predicate AtMost(times: seq<real>, now: real) {
    forall i :: 0 <= i < |times| ==> times[i] <= now
  }

  lemma {:induction false} AfterAtMost(times: seq<real>, lo: real, now: real)
    requires AtMost(times, now)
    ensures AtMost(After(times, lo), now)
  {
    if times != [] {
      AfterAtMost(Init(times), lo, now);
    }
  }

  lemma {:induction false} AfterInOrder(times: seq<real>, lo: real)
    requires Nondecreasing(times)
    ensures Nondecreasing(After(times, lo))
  {
    if times != [] {
      AfterInOrder(Init(times), lo);
      AfterAtMost(Init(times), lo, Last(times));
    }
  }

  lemma SnocInOrder(times: seq<real>, x: real)
    requires Nondecreasing(times) && AtMost(times, x)
    ensures Nondecreasing(times + [x]) && AtMost(times + [x], x)
  {
  }

  lemma AtMostWeakens(times: seq<real>, x: real, now: real)
    requires AtMost(times, x) && x <= now
    ensures AtMost(times, now)
  {
  }

  /** In time order and not later than now. */
  predicate Ordered(times: seq<real>, now: real) {
    Nondecreasing(times) && AtMost(times, now)
  }

  lemma ArriveInOrder(requests: seq<real>, now: real)
    requires Ordered(requests, now)
    ensures Ordered(Arrive(requests, now).0, now)
  {
    AfterInOrder(requests, now - WINDOW);
    AfterAtMost(requests, now - WINDOW, now);
    hide After, Nondecreasing, AtMost;
    SnocInOrder(After(requests, now - WINDOW), now);
  }

  lemma InitInOrder(times: seq<real>)
    requires times != [] && Nondecreasing(times)
    ensures Ordered(Init(times), Last(times))
  {
  }

  /** Nothing queued or admitted is later than the latest arrival, and both are in time order. */
  lemma {:induction false} ServeInOrder(arrivals: seq<real>, now: real)
    requires Ordered(arrivals, now)
    ensures Ordered(Serve(arrivals).0, now) && Ordered(Serve(arrivals).1, now)
  {
    if arrivals != [] {
      var latest := Last(arrivals);
      assert latest <= now;
      InitInOrder(arrivals);
      hide After, Nondecreasing, AtMost, Arrive;
      ServeInOrder(Init(arrivals), latest);
      var (requests, admitted) := Serve(Init(arrivals));
      ArriveInOrder(requests, latest);
      SnocInOrder(admitted, latest);
      AtMostWeakens(Serve(arrivals).0, latest, now);
      AtMostWeakens(Serve(arrivals).1, latest, now);
    }
  }

  lemma {:induction false} WindowIsAfter(times: seq<real>, now: real)
    requires AtMost(times, now)
    ensures InWindow(times, now) == After(times, now - WINDOW)
  {
    if times != [] {
      WindowIsAfter(Init(times), now);
    }
  }

  ghost predicate Bounded(times: seq<real>, t: real) {
    |InWindow(times, t)| <= 600
  }

  /** No window of 60 seconds holds more than the limit. */
  ghost predicate AllBounded(times: seq<real>) {
    forall t :: Bounded(times, t)
  }

  /** Admitting onto a live window that is not full keeps every window within the limit. */
  lemma AdmissionKeepsBound(admitted: seq<real>, now: real)
    requires AllBounded(admitted) && |After(admitted, now - WINDOW)| < LIMIT
    ensures AllBounded(admitted + [now])
  {
    forall t ensures Bounded(admitted + [now], t) {
      InWindowSnoc(admitted, now, t);
      assert Bounded(admitted, t);
      if now <= t {
        WindowWithin(admitted, t, now - WINDOW);
      }
    }
  }

  /** The deque after one more arrival, in terms of the admitted history. */
  lemma ServeStep(arrivals: seq<real>, now: real)
    requires Nondecreasing(arrivals) && AtMost(arrivals, now)
    requires arrivals != [] ==> Serve(arrivals).0 == After(Serve(arrivals).1, Last(arrivals) - WINDOW)
    ensures After(Serve(arrivals).0, now - WINDOW) == After(Serve(arrivals).1, now - WINDOW)
  {
    if arrivals != [] {
      AfterAfter(Serve(arrivals).1, Last(arrivals) - WINDOW, now - WINDOW);
    }
  }

  /** One arrival keeps the deque exact and every window within the limit. */
  lemma ArriveIsExact(requests: seq<real>, admitted: seq<real>, now: real)
    requires After(requests, now - WINDOW) == After(admitted, now - WINDOW) && AllBounded(admitted)
    ensures var (next, ok) := Arrive(requests, now);
            var more := admitted + if ok then [now] else [];
            next == After(more, now - WINDOW) && AllBounded(more)
  {
    hide After, InWindow, AllBounded;
    AfterSnoc(admitted, now, now - WINDOW);
    if Arrive(requests, now).1 {
      AdmissionKeepsBound(admitted, now);
    } else {
      assert admitted + [] == admitted;
    }
  }

  /**
    For any arrivals in time order: the deque is exactly the admitted requests still in the window,
    and no window of 60 seconds ever holds more than 600 of them.
  */
  lemma {:induction false} ServeIsExact(arrivals: seq<real>)
    requires Nondecreasing(arrivals)
    ensures var (requests, admitted) := Serve(arrivals);
            && (arrivals != [] ==> requests == After(admitted, Last(arrivals) - WINDOW))
            && AllBounded(admitted)
  {
    if arrivals != [] {
      var earlier, now := Init(arrivals), Last(arrivals);
      InitInOrder(arrivals);
      assert arrivals == earlier + [now];
      hide After, InWindow, Serve, Nondecreasing, AtMost, AllBounded;
      ServeIsExact(earlier);
      ServeStep(earlier, now);
      ServeSnoc(earlier, now);
      ArriveIsExact(Serve(earlier).0, Serve(earlier).1, now);
    } else {
      assert Serve(arrivals) == ([], []);
      assert forall t :: InWindow([], t) == [];
      assert forall t :: Bounded([], t);
    }
  }

  /** A 429 is answered exactly when 600 admitted requests lie in the window ending now. */
  lemma RejectedIffFull(arrivals: seq<real>, now: real)
    requires Nondecreasing(arrivals) && AtMost(arrivals, now)
    ensures var (requests, admitted) := Serve(arrivals);
            !Arrive(requests, now).1 <==> |InWindow(admitted, now)| == 600
  {
    hide After, InWindow, Serve;
    ServeIsExact(arrivals);
    ServeInOrder(arrivals, now);
    ServeStep(arrivals, now);
    var (requests, admitted) := Serve(arrivals);
    WindowIsAfter(admitted, now);
    assert Bounded(admitted, now);
  }

  lemma ServeSnoc(arrivals: seq<real>, now: real)
    ensures var (requests, admitted) := Serve(arrivals);
            var (next, ok) := Arrive(requests, now);
            Serve(arrivals + [now]) == (next, admitted + if ok then [now] else [])
  {
    hide Arrive;
    assert Init(arrivals + [now]) == arrivals;
    assert Serve(arrivals).1 + [] == Serve(arrivals).1;
  }

  /** One more arrival, as the deque sees it and as the admitted history does. */
  lemma ServeAnother(arrivals: seq<real>, now: real)
    requires Ordered(arrivals, now)
    ensures Nondecreasing(arrivals + [now])
    ensures var (requests, admitted) := Serve(arrivals);
            var (next, ok) := Arrive(requests, now);
            && Serve(arrivals + [now]) == (next, admitted + if ok then [now] else [])
            && Nondecreasing(next)
            && (ok <==> |InWindow(admitted, now)| < LIMIT)
  {
    SnocInOrder(arrivals, now);
    hide After, InWindow, Nondecreasing, AtMost, Serve, Arrive;
    ServeSnoc(arrivals, now);
    ServeInOrder(arrivals, now);
    ArriveInOrder(Serve(arrivals).0, now);
    RejectedIffFull(arrivals, now);
    ServeIsExact(arrivals);
    assert Bounded(Serve(arrivals).1, now);
  }
}
