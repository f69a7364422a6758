/** The per-IP fixed-window limiter in front of the RPC endpoint, and its bound over whole traces. */
module RateLimiter {
  import opened Common

  /** Monotonic clock readings in nanoseconds. */
  const MINUTE: int := 60_000_000_000

  type Ip = string

  datatype Window = Window(start: int, count: nat)

  datatype Answer = Answer(window: Window, ok: bool)

  /** The window a call falls into: the open one, or a new one after a minute. */
  function Current(w: Option<Window>, now: int): Window
  {
    if w.None? || now - w.value.start >= MINUTE then Window(now, 0) else w.value
  }

  function Ask(w: Option<Window>, limit: nat, now: int): Answer
  {
    var v := Current(w, now);
    if v.count >= limit then Answer(v, false) else Answer(Window(v.start, v.count + 1), true)
  }

  function Lookup(windows: map<Ip, Window>, ip: Ip): Option<Window>
  {
    if ip in windows then Some(windows[ip]) else None
  }

  class RateLimiter {
    var windows: map<Ip, Window>

    constructor ()
      ensures windows == map[]
    {
      windows := map[];
    }

    /** A zero limit disables the limiter. */
    method Allow(ip: Ip, limit: nat, now: int) returns (ok: bool)
      modifies this
      ensures limit == 0 ==> ok && windows == old(windows)
      ensures limit > 0 ==>
                var a := Ask(Lookup(old(windows), ip), limit, now);
                ok == a.ok && windows == old(windows)[ip := a.window]
    {
      if limit == 0 { return true; }
      if ip !in windows {
        windows := windows[ip := Window(now, 0)];
      }
      if now - windows[ip].start >= MINUTE {
        windows := windows[ip := Window(now, 0)];
      }
      if windows[ip].count >= limit { return false; }
      windows := windows[ip := Window(windows[ip].start, windows[ip].count + 1)];
      return true;
    }
  }

  // ---------------------------------------------------------------------------
  // Traces
  // ---------------------------------------------------------------------------

  datatype Call = Call(ip: Ip, now: int)

  /** The limiter's windows after a trace. */
  function After(calls: seq<Call>, limit: nat): map<Ip, Window>
  {
    if |calls| == 0 then map[]
    else
      var before, c := After(calls[..|calls| - 1], limit), calls[|calls| - 1];
      before[c.ip := Ask(Lookup(before, c.ip), limit, c.now).window]
  }

  /** The accepted calls of one IP with `from <= now < to`. */
  function AcceptedIn(calls: seq<Call>, limit: nat, ip: Ip, from: int, to: int): nat
  {
    if |calls| == 0 then 0
    else
      var front, c := calls[..|calls| - 1], calls[|calls| - 1];
      AcceptedIn(front, limit, ip, from, to) +
      if c.ip == ip && from <= c.now < to && Ask(Lookup(After(front, limit), ip), limit, c.now).ok then 1 else 0
  }

  ghost predicate Monotone(calls: seq<Call>) { forall i, j :: 0 <= i < j < |calls| ==> calls[i].now <= calls[j].now }

  // One IP alone

  function TimesOf(calls: seq<Call>, ip: Ip): seq<int>
  {
    if |calls| == 0 then []
    else
      var front, c := TimesOf(calls[..|calls| - 1], ip), calls[|calls| - 1];
      if c.ip == ip then front + [c.now] else front
  }

  function WindowOf(times: seq<int>, limit: nat): Option<Window>
  {
    if |times| == 0 then None
    else Some(Ask(WindowOf(times[..|times| - 1], limit), limit, times[|times| - 1]).window)
  }

  function Accepted(times: seq<int>, limit: nat, from: int, to: int): nat
  {
    if |times| == 0 then 0
    else
      var front, t := times[..|times| - 1], times[|times| - 1];
      Accepted(front, limit, from, to) + if from <= t < to && Ask(WindowOf(front, limit), limit, t).ok then 1 else 0
  }

  ghost predicate Sorted(times: seq<int>) { forall i, j :: 0 <= i < j < |times| ==> times[i] <= times[j] }

  /** Calls of other IPs change neither the window nor the answers of an IP. */
  lemma {:induction false} OthersDoNotInterfere(calls: seq<Call>, limit: nat, ip: Ip, from: int, to: int)
    ensures Lookup(After(calls, limit), ip) == WindowOf(TimesOf(calls, ip), limit)
    ensures AcceptedIn(calls, limit, ip, from, to) == Accepted(TimesOf(calls, ip), limit, from, to)
  {
    if |calls| > 0 {
      var front, c := calls[..|calls| - 1], calls[|calls| - 1];
      OthersDoNotInterfere(front, limit, ip, from, to);
      if c.ip == ip {
        var times := TimesOf(calls, ip);
        assert times[..|times| - 1] == TimesOf(front, ip);
      }
    }
  }

  ghost predicate AtMost(times: seq<int>, t: int) { forall i :: 0 <= i < |times| ==> times[i] <= t }

  lemma {:induction false} TimesSorted(calls: seq<Call>, ip: Ip, t: int)
    requires Monotone(calls) && (|calls| > 0 ==> calls[|calls| - 1].now <= t)
    ensures Sorted(TimesOf(calls, ip)) && AtMost(TimesOf(calls, ip), t)
  {
    if |calls| > 0 {
      var last := calls[|calls| - 1].now;
      TimesSorted(calls[..|calls| - 1], ip, last);
      assert AtMost(TimesOf(calls[..|calls| - 1], ip), t);
    }
  }

  // ---------------------------------------------------------------------------
  // The bound
  // ---------------------------------------------------------------------------

  lemma SortedFront(times: seq<int>)
    requires |times| > 0 && Sorted(times)
    ensures Sorted(times[..|times| - 1])
    ensures |times| > 1 ==> times[|times| - 2] <= times[|times| - 1]
  {
  }

  lemma {:induction false} NoneAfter(times: seq<int>, limit: nat, from: int, to: int)
    requires Sorted(times) && (|times| > 0 ==> times[|times| - 1] < from)
    ensures Accepted(times, limit, from, to) == 0
  {
    if |times| > 0 {
      SortedFront(times);
      NoneAfter(times[..|times| - 1], limit, from, to);
    }
  }

  /**
   The open window: it started at an accepted call, has counted exactly the calls accepted since, at
   most the limit, and at most `limit - 1` were accepted in the minute before it.
   */
  ghost predicate WindowInvariant(times: seq<int>, limit: nat, a: int, to: int)
    requires |times| > 0
  {
    var w := WindowOf(times, limit).value;
    && 1 <= w.count <= limit && w.start <= times[|times| - 1] < w.start + MINUTE
    && Accepted(times, limit, w.start, to) == w.count
    && (a > w.start ==> Accepted(times, limit, a, to) <= w.count - 1)
    && (w.start - MINUTE < a <= w.start ==> Accepted(times, limit, a, to) <= w.count + limit - 1)
  }

  lemma FirstCall(times: seq<int>, limit: nat, a: int, to: int)
    requires limit > 0 && |times| == 1 && times[0] < to
    ensures WindowInvariant(times, limit, a, to)
  {
  }

  lemma {:induction false} Invariant(times: seq<int>, limit: nat, a: int, to: int)
    requires limit > 0 && |times| > 0 && Sorted(times) && times[|times| - 1] < to
    ensures WindowInvariant(times, limit, a, to)
  {
    if |times| == 1 {
      FirstCall(times, limit, a, to);
    } else {
      var front, t := times[..|times| - 1], times[|times| - 1];
      SortedFront(times);
      Invariant(front, limit, a, to);
      var w := WindowOf(front, limit).value;
      if t - w.start >= MINUTE {
        NoneAfter(front, limit, t, to);
        if a > t { NoneAfter(front, limit, a, to); }
      }
    }
  }

  /** A window never accepts more than the limit: the minute from any call that opened one. */
  lemma {:induction false} WindowBound(times: seq<int>, limit: nat, k: nat)
    requires limit > 0 && Sorted(times) && k < |times|
    requires Current(WindowOf(times[..k], limit), times[k]) == Window(times[k], 0)
    ensures Accepted(times, limit, times[k], times[k] + MINUTE) <= limit
    ensures WindowOf(times, limit).value.start == times[k] || WindowOf(times, limit).value.start >= times[k] + MINUTE
  {
    var s, last := times[k], times[|times| - 1];
    if k == |times| - 1 {
      Invariant(times, limit, s, s + MINUTE);
    } else {
      SortedFront(times);
      var front := times[..|times| - 1];
      assert front[..k] == times[..k];
      WindowBound(front, limit, k);
      if last < s + MINUTE {
        Invariant(times, limit, s, s + MINUTE);
      }
    }
  }

  /** Any half-open minute holds at most `2 * limit - 1` accepted calls of an IP. */
  lemma {:induction false} MinuteBound(times: seq<int>, limit: nat, a: int)
    requires limit > 0 && Sorted(times)
    ensures Accepted(times, limit, a, a + MINUTE) <= 2 * limit - 1
  {
    if |times| > 0 {
      var t := times[|times| - 1];
      SortedFront(times);
      if a <= t < a + MINUTE {
        Invariant(times, limit, a, a + MINUTE);
      } else {
        MinuteBound(times[..|times| - 1], limit, a);
      }
    }
  }

  lemma TraceBound(calls: seq<Call>, limit: nat, ip: Ip, a: int)
    requires limit > 0 && Monotone(calls)
    ensures AcceptedIn(calls, limit, ip, a, a + MINUTE) <= 2 * limit - 1
  {
    OthersDoNotInterfere(calls, limit, ip, a, a + MINUTE);
    TimesSorted(calls, ip, if |calls| > 0 then calls[|calls| - 1].now else 0);
    MinuteBound(TimesOf(calls, ip), limit, a);
  }

  // ---------------------------------------------------------------------------
  // The bound is reached, so the limit does not hold for a rolling minute
  // ---------------------------------------------------------------------------

  function Burst(times: seq<int>, t: int, n: nat): seq<int>
  {
    if n == 0 then times else Burst(times, t, n - 1) + [t]
  }

  lemma OneMore(times: seq<int>, limit: nat, t: int, from: int, to: int)
    requires from <= t < to && Current(WindowOf(times, limit), t).count < limit
    ensures var v := Current(WindowOf(times, limit), t);
            WindowOf(times + [t], limit) == Some(Window(v.start, v.count + 1))
    ensures Accepted(times + [t], limit, from, to) == Accepted(times, limit, from, to) + 1
  {
  }

  lemma {:induction false} BurstAccepted(times: seq<int>, limit: nat, t: int, n: nat, from: int, to: int, w: Window)
    requires from <= t < to && WindowOf(times, limit) == Some(w)
    requires w.start <= t < w.start + MINUTE && w.count + n <= limit
    ensures WindowOf(Burst(times, t, n), limit) == Some(Window(w.start, w.count + n))
    ensures Accepted(Burst(times, t, n), limit, from, to) == Accepted(times, limit, from, to) + n
  {
    hide WindowOf, Accepted;
    if n > 0 {
      BurstAccepted(times, limit, t, n - 1, from, to, w);
      OneMore(Burst(times, t, n - 1), limit, t, from, to);
    }
  }

  lemma {:induction false} BurstSorted(times: seq<int>, t: int, n: nat)
    requires Sorted(times) && (|times| > 0 ==> times[|times| - 1] <= t)
    ensures Sorted(Burst(times, t, n))
    ensures |Burst(times, t, n)| == |times| + n && (n > 0 ==> Burst(times, t, n)[|times| + n - 1] == t)
  {
    if n > 0 {
      BurstSorted(times, t, n - 1);
    }
  }

  /** One call, `limit - 1` just before the minute ends, and `limit` when it has. */
  function Straddle(limit: nat): seq<int>
    requires limit > 0
  {
    Burst(Burst([0], MINUTE - 1, limit - 1), MINUTE, limit)
  }

  lemma MinuteBoundReached(limit: nat)
    requires limit > 0
    ensures Sorted(Straddle(limit)) && Accepted(Straddle(limit), limit, MINUTE - 1, 2 * MINUTE - 1) == 2 * limit - 1
  {
    StraddleSorted(limit);
    FirstAnswer(limit, MINUTE - 1, 2 * MINUTE - 1);
    hide WindowOf, Accepted, Sorted, Burst;
    var a, b, late := MINUTE - 1, 2 * MINUTE - 1, Burst([0], MINUTE - 1, limit - 1);
    BurstAccepted([0], limit, a, limit - 1, a, b, Window(0, 1));
    OneMore(late, limit, MINUTE, a, b);
    BurstAccepted(late + [MINUTE], limit, MINUTE, limit - 1, a, b, Window(MINUTE, 1));
    BurstShift(late, MINUTE, limit - 1);
  }

  lemma StraddleSorted(limit: nat)
    requires limit > 0
    ensures Sorted(Straddle(limit))
  {
    var late := Burst([0], MINUTE - 1, limit - 1);
    BurstSorted([0], MINUTE - 1, limit - 1);
    BurstSorted(late, MINUTE, limit);
  }

  lemma FirstAnswer(limit: nat, from: int, to: int)
    requires limit > 0 && 0 < from
    ensures WindowOf([0], limit) == Some(Window(0, 1)) && Accepted([0], limit, from, to) == 0
  {
  }

  lemma {:induction false} BurstShift(times: seq<int>, t: int, n: nat)
    ensures Burst(times + [t], t, n) == Burst(times, t, n + 1)
  {
    if n > 0 {
      BurstShift(times, t, n - 1);
    }
  }

  /** A trace in which one IP makes calls at the given times. */
  function CallsAt(times: seq<int>, ip: Ip): seq<Call>
  {
    if |times| == 0 then [] else CallsAt(times[..|times| - 1], ip) + [Call(ip, times[|times| - 1])]
  }

  lemma {:induction false} CallsAtFacts(times: seq<int>, ip: Ip)
    ensures TimesOf(CallsAt(times, ip), ip) == times && |CallsAt(times, ip)| == |times|
    ensures forall i :: 0 <= i < |times| ==> CallsAt(times, ip)[i].now == times[i]
  {
    if |times| > 0 {
      var calls, front := CallsAt(times, ip), times[..|times| - 1];
      CallsAtFacts(front, ip);
      assert calls[..|calls| - 1] == CallsAt(front, ip);
    }
  }

  /** At most `limit` accepts in the sixty seconds from `a` on. */
  predicate WithinLimit(calls: seq<Call>, limit: nat, ip: Ip, a: int)
  {
    AcceptedIn(calls, limit, ip, a, a + 60_000_000_000) <= limit
  }

  ghost predicate RollingMinuteHolds(limit: nat)
  {
    forall calls, ip, a :: Monotone(calls) ==> WithinLimit(calls, limit, ip, a)
  }

  /** The limit holds for every minute of every trace only when it is one. */
  lemma RollingMinuteIff(limit: nat)
    requires limit > 0
    ensures RollingMinuteHolds(limit) <==> limit == 1
  {
    hide AcceptedIn, Accepted, TimesOf, CallsAt, Straddle;
    if limit == 1 {
      forall calls, ip, a | Monotone(calls)
        ensures WithinLimit(calls, limit, ip, a)
      {
        TraceBound(calls, limit, ip, a);
      }
    } else {
      var times, ip: Ip := Straddle(limit), "";
      MinuteBoundReached(limit);
      CallsAtFacts(times, ip);
      OthersDoNotInterfere(CallsAt(times, ip), limit, ip, MINUTE - 1, 2 * MINUTE - 1);
      assert Monotone(CallsAt(times, ip));
      assert MINUTE - 1 + MINUTE == 2 * MINUTE - 1;
      assert !WithinLimit(CallsAt(times, ip), limit, ip, MINUTE - 1);
    }
  }
}
