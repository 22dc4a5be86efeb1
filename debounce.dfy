/**
 * The trailing-edge resize debounce that `construct` installs when
 * `allowResize` is set. Each such call registers one window-resize handler
 * with its own captured `resizeTimeout`; on every resize event a handler
 * cancels its pending timeout and schedules `onResize` again 200 ms later.
 *
 * Time is an abstract host clock in milliseconds. The host delivers events in
 * order: `Tick(t)` moves the clock to `t` and runs every timeout whose
 * deadline has come (`deadline <= t`); `Resized` is a window-resize event at
 * the current time. `onResize` is observed through the list of times at
 * which it was called.
 */
module Debounce {
  import opened Wrappers

  /** The delay passed to `setTimeout`, in milliseconds. */
  const QuietPeriod: int := 200

  /** One entry per registered handler: the deadline of its pending timeout, or none. */
  type Timeouts = seq<Option<int>>

  /** The handlers' timeouts, the host clock, and the times `onResize` has run so far. */
  datatype State = State(timeouts: Timeouts, now: int, calls: seq<int>)

  datatype Event = Resized | Tick(t: int)

  /** Before `construct`: no handler, the clock at 0, no call. */
  const Initial: State := State([], 0, [])

  /** `jQuery(window).resize(handler)`: one more handler, with nothing pending (`resizeTimeout = 0`). */
  function Subscribe(s: State): (r: State)
    ensures |r.timeouts| == |s.timeouts| + 1
    ensures r.timeouts[..|s.timeouts|] == s.timeouts && r.timeouts[|s.timeouts|].None?
    ensures r.now == s.now && r.calls == s.calls
  {
    s.(timeouts := s.timeouts + [None])
  }

  /** A timeout that has reached its deadline by time `t`. */
  predicate IsDue(o: Option<int>, t: int) {
    o.Some? && o.value <= t
  }

  /** Some handler has a timeout pending. */
  predicate AnyPending(ts: Timeouts) {
    exists i :: 0 <= i < |ts| && ts[i].Some?
  }

  /** `clearTimeout(resizeTimeout); resizeTimeout = setTimeout(..., 200)` in every handler. */
  function Rearm(ts: Timeouts, deadline: int): (r: Timeouts)
    ensures |r| == |ts|
    ensures forall i :: 0 <= i < |r| ==> r[i] == Some(deadline)
  {
    seq(|ts|, _ => Some(deadline))
  }

  /** The timeouts left pending once those due by `t` have run. */
  function Expire(ts: Timeouts, t: int): (r: Timeouts)
    ensures |r| == |ts|
    ensures forall i :: 0 <= i < |ts| ==> r[i] == if IsDue(ts[i], t) then None else ts[i]
    ensures forall i :: 0 <= i < |r| ==> !IsDue(r[i], t)
  {
    seq(|ts|, i requires 0 <= i < |ts| => if IsDue(ts[i], t) then None else ts[i])
  }

  /** The number of handlers with a timeout pending. */
  function Pending(ts: Timeouts): (n: nat)
    ensures n <= |ts|
    ensures (forall i :: 0 <= i < |ts| ==> ts[i].Some?) ==> n == |ts|
  {
    if ts == [] then 0 else (if ts[0].Some? then 1 else 0) + Pending(ts[1..])
  }

  /** No handler is pending exactly when the pending count is zero. */
  lemma {:induction false} PendingZero(ts: Timeouts)
    ensures Pending(ts) == 0 <==> !AnyPending(ts)
  {
    if ts != [] {
      PendingZero(ts[1..]);
      if AnyPending(ts) && ts[0].None? {
        var i :| 0 <= i < |ts| && ts[i].Some?;
        assert ts[1..][i - 1].Some?;
      }
      if AnyPending(ts[1..]) {
        var i :| 0 <= i < |ts[1..]| && ts[1..][i].Some?;
        assert ts[i + 1].Some?;
      }
    }
  }

  /** The deadline of the first pending timeout, if any. */
  function FirstDeadline(ts: Timeouts): (d: Option<int>)
    ensures d.None? <==> !AnyPending(ts)
    ensures d.Some? ==> exists i :: 0 <= i < |ts| && ts[i] == d
  {
    if ts == [] then None
    else if ts[0].Some? then ts[0]
    else
      var d := FirstDeadline(ts[1..]);
      assert d.Some? ==> exists i :: 0 <= i < |ts| && ts[i] == d by {
        if d.Some? {
          var i :| 0 <= i < |ts[1..]| && ts[1..][i] == d;
          assert ts[i + 1] == d;
        }
      }
      assert AnyPending(ts) ==> AnyPending(ts[1..]) by {
        if AnyPending(ts) {
          var i :| 0 <= i < |ts| && ts[i].Some?;
          assert ts[1..][i - 1].Some?;
        }
      }
      d
  }

  /** The deadlines of the timeouts due by `t`, in handler order: one `onResize` call each. */
  function Due(ts: Timeouts, t: int): (r: seq<int>)
    ensures |r| <= Pending(ts)
    ensures forall j :: 0 <= j < |r| ==> r[j] <= t
  {
    if ts == [] then []
    else (if IsDue(ts[0], t) then [ts[0].value] else []) + Due(ts[1..], t)
  }

  /** One host step. */
  function Step(s: State, e: Event): (r: State)
    requires e.Tick? ==> s.now <= e.t
    ensures e.Resized? ==> r.now == s.now && r.calls == s.calls
    ensures e.Resized? ==> |r.timeouts| == |s.timeouts|
    ensures e.Resized? ==> forall i :: 0 <= i < |r.timeouts| ==> r.timeouts[i] == Some(s.now + QuietPeriod)
    ensures e.Tick? ==> r.now == e.t && |r.timeouts| == |s.timeouts|
    ensures e.Tick? ==> r.calls == s.calls + Due(s.timeouts, e.t)
    ensures e.Tick? ==> forall i :: 0 <= i < |r.timeouts| ==> !IsDue(r.timeouts[i], e.t)
    ensures e.Resized? ==> r.timeouts == Rearm(s.timeouts, s.now + QuietPeriod)
    ensures e.Tick? ==> r.timeouts == Expire(s.timeouts, e.t)
  {
    match e
    case Resized => s.(timeouts := Rearm(s.timeouts, s.now + QuietPeriod))
    case Tick(t) => State(Expire(s.timeouts, t), t, s.calls + Due(s.timeouts, t))
  }

  /** The clock never goes back along `es` when it starts at `now`. */
  predicate Monotone(now: int, es: seq<Event>)
    decreases |es|
  {
    es == [] ||
    (var next := if es[0].Tick? then es[0].t else now;
     now <= next && Monotone(next, es[1..]))
  }

  /** The state after the events `es`, one step at a time. */
  function Run(s: State, es: seq<Event>): State
    requires Monotone(s.now, es)
    decreases |es|
  {
    if es == [] then s else Run(Step(s, es[0]), es[1..])
  }

  /**
   * The debounce invariant: every pending timeout was scheduled at most
   * `QuietPeriod` ago, has not yet come due, and all pending timeouts share
   * one deadline (that of the last resize event).
   */
  predicate Inv(s: State) {
    && (forall i :: 0 <= i < |s.timeouts| && s.timeouts[i].Some? ==>
          s.now < s.timeouts[i].value <= s.now + QuietPeriod)
    && (forall i, j ::
          0 <= i < |s.timeouts| && 0 <= j < |s.timeouts| && s.timeouts[i].Some? && s.timeouts[j].Some?
          ==> s.timeouts[i] == s.timeouts[j])
  }

  lemma InitialInv()
    ensures Inv(Initial) && Initial.calls == []
  {
  }

  /** Every step keeps the debounce invariant. */
  lemma StepKeepsInv(s: State, e: Event)
    requires Inv(s)
    requires e.Tick? ==> s.now <= e.t
    ensures Inv(Step(s, e))
  {
  }

  lemma SubscribeKeepsInv(s: State)
    requires Inv(s)
    ensures Inv(Subscribe(s))
  {
  }

  /** Nothing runs on a tick before any pending deadline. */
  lemma {:induction false} DueNone(ts: Timeouts, t: int)
    requires forall i :: 0 <= i < |ts| ==> !IsDue(ts[i], t)
    ensures Due(ts, t) == [] && Expire(ts, t) == ts
  {
    if ts != [] {
      DueNone(ts[1..], t);
    }
  }

  /**
   * When every pending timeout shares one deadline that is due by `t`, each
   * pending handler runs `onResize` once, at that deadline, and none stays
   * pending; idle handlers run nothing.
   */
  lemma {:induction false} DueAll(ts: Timeouts, deadline: int, t: int)
    requires forall i :: 0 <= i < |ts| ==> ts[i].None? || ts[i] == Some(deadline)
    requires deadline <= t
    ensures Due(ts, t) == seq(Pending(ts), _ => deadline)
    ensures Expire(ts, t) == seq(|ts|, _ => None)
  {
    if ts != [] {
      DueAll(ts[1..], deadline, t);
      if ts[0].Some? {
        assert Due(ts, t) == [deadline] + Due(ts[1..], t);
      } else {
        assert Due(ts, t) == Due(ts[1..], t);
      }
    }
  }

  /**
   * A tick in any reachable state: if no timeout is pending, or the shared
   * deadline is after `t`, nothing runs and nothing changes but the clock;
   * otherwise every pending handler runs `onResize` once at that deadline and
   * none stays pending.
   */
  lemma TickFiresPending(s: State, t: int)
    requires Inv(s) && s.now <= t
    ensures var r, d := Step(s, Tick(t)), FirstDeadline(s.timeouts);
      (d.None? || t < d.value ==> r.calls == s.calls && r.timeouts == s.timeouts) &&
      (d.Some? && d.value <= t ==>
        r.calls == s.calls + seq(Pending(s.timeouts), _ => d.value) && !AnyPending(r.timeouts))
  {
    var d := FirstDeadline(s.timeouts);
    if d.Some? {
      var j :| 0 <= j < |s.timeouts| && s.timeouts[j] == d;
      assert forall i :: 0 <= i < |s.timeouts| ==> s.timeouts[i].None? || s.timeouts[i] == d;
      if d.value <= t {
        DueAll(s.timeouts, d.value, t);
      } else {
        DueNone(s.timeouts, t);
      }
    } else {
      DueNone(s.timeouts, t);
    }
  }

  /** Without a handler (`allowResize` false at `construct`), `onResize` is never called. */
  lemma {:induction false} NoHandlerNoCalls(s: State, es: seq<Event>)
    requires s.timeouts == []
    requires Monotone(s.now, es)
    ensures Run(s, es).calls == s.calls
    decreases |es|
  {
    if es != [] {
      var s' := Step(s, es[0]);
      assert s'.timeouts == [];
      NoHandlerNoCalls(s', es[1..]);
    }
  }

  /** The times are a burst: in order, each within `QuietPeriod` of the one before. */
  predicate Burst(times: seq<int>) {
    forall i :: 0 <= i < |times| - 1 ==> times[i] <= times[i + 1] < times[i] + QuietPeriod
  }

  /** A resize event at each of `times`. */
  function ResizesAt(times: seq<int>): seq<Event>
  {
    if times == [] then [] else [Tick(times[0]), Resized] + ResizesAt(times[1..])
  }

  /** The events for `times`: the clock moves to `times[i]`, then the window resizes. */
  lemma {:induction false} ResizesAtEvents(times: seq<int>)
    ensures |ResizesAt(times)| == 2 * |times|
    ensures forall i :: 0 <= i < |times| ==>
      ResizesAt(times)[2 * i] == Tick(times[i]) && ResizesAt(times)[2 * i + 1] == Resized
  {
    if times != [] {
      ResizesAtEvents(times[1..]);
      var es := ResizesAt(times);
      assert es == [Tick(times[0]), Resized] + ResizesAt(times[1..]);
      forall i | 1 <= i < |times|
        ensures es[2 * i] == Tick(times[i]) && es[2 * i + 1] == Resized
      {
        assert es[2 * i] == ResizesAt(times[1..])[2 * (i - 1)];
        assert es[2 * i + 1] == ResizesAt(times[1..])[2 * (i - 1) + 1];
      }
    }
  }

  /**
   * During a burst of resize events no `onResize` runs, and afterwards every
   * handler has exactly one timeout pending, due `QuietPeriod` after the last
   * event of the burst.
   */
  lemma {:induction false} BurstArms(s: State, times: seq<int>)
    requires |times| > 0 && Burst(times)
    requires s.now <= times[0]
    requires forall i :: 0 <= i < |s.timeouts| ==> !IsDue(s.timeouts[i], times[0])
    ensures Monotone(s.now, ResizesAt(times))
    ensures var r := Run(s, ResizesAt(times));
      r.calls == s.calls && r.now == times[|times| - 1] &&
      r.timeouts == Rearm(s.timeouts, times[|times| - 1] + QuietPeriod)
    decreases |times|
  {
    var t0, rest := times[0], times[1..];
    assert ResizesAt(times) == [Tick(t0)] + ([Resized] + ResizesAt(rest));
    DueNone(s.timeouts, t0);
    var s1 := Step(s, Tick(t0));
    var s2 := Step(s1, Resized);
    if rest != [] {
      assert Burst(rest) by {
        forall i | 0 <= i < |rest| - 1 ensures rest[i] <= rest[i + 1] < rest[i] + QuietPeriod {
          assert rest[i] == times[i + 1] && rest[i + 1] == times[i + 2];
        }
      }
      BurstArms(s2, rest);
    }
    RunCons(s1, Resized, ResizesAt(rest));
    RunCons(s, Tick(t0), [Resized] + ResizesAt(rest));
  }

  /**
   * A burst collapses into one `onResize` per handler: a tick at least
   * `QuietPeriod` after the last resize event runs each handler's callback
   * once, at that deadline, and leaves nothing pending.
   */
  lemma BurstFiresOnce(s: State, times: seq<int>, t: int)
    requires |times| > 0 && Burst(times)
    requires s.now <= times[0]
    requires forall i :: 0 <= i < |s.timeouts| ==> !IsDue(s.timeouts[i], times[0])
    requires t >= times[|times| - 1] + QuietPeriod
    ensures Monotone(s.now, ResizesAt(times))
    ensures Run(s, ResizesAt(times)).now <= t
    ensures var r := Step(Run(s, ResizesAt(times)), Tick(t));
      r.calls == s.calls + seq(|s.timeouts|, _ => times[|times| - 1] + QuietPeriod) &&
      !AnyPending(r.timeouts)
  {
    BurstArms(s, times);
    var r := Run(s, ResizesAt(times));
    DueAll(r.timeouts, times[|times| - 1] + QuietPeriod, t);
  }

  /** No `onResize` runs until `QuietPeriod` has passed since the last resize event. */
  lemma QuietBeforeDeadline(s: State, times: seq<int>, t: int)
    requires |times| > 0 && Burst(times)
    requires s.now <= times[0]
    requires forall i :: 0 <= i < |s.timeouts| ==> !IsDue(s.timeouts[i], times[0])
    requires times[|times| - 1] <= t < times[|times| - 1] + QuietPeriod
    ensures Monotone(s.now, ResizesAt(times))
    ensures Run(s, ResizesAt(times)).now <= t
    ensures var r := Step(Run(s, ResizesAt(times)), Tick(t));
      r.calls == s.calls && r.timeouts == Rearm(s.timeouts, times[|times| - 1] + QuietPeriod)
  {
    BurstArms(s, times);
    var r := Run(s, ResizesAt(times));
    DueNone(r.timeouts, t);
  }

  /** Running `[e] + rest` takes the step `e`, then runs `rest`. */
  lemma RunCons(s: State, e: Event, rest: seq<Event>)
    requires e.Tick? ==> s.now <= e.t
    requires Monotone(Step(s, e).now, rest)
    ensures Monotone(s.now, [e] + rest)
    ensures Run(s, [e] + rest) == Run(Step(s, e), rest)
  {
  }

  /**
   * Two resize events at least `QuietPeriod` apart are two bursts: each
   * handler's `onResize` runs once for each of them.
   */
  lemma SeparatedResizesFireTwice(s: State, t1: int, t2: int, t: int)
    requires !AnyPending(s.timeouts)
    requires s.now <= t1 && t1 + QuietPeriod <= t2 && t2 + QuietPeriod <= t
    ensures Monotone(s.now, ResizesAt([t1, t2]) + [Tick(t)])
    ensures Run(s, ResizesAt([t1, t2]) + [Tick(t)]).calls
         == s.calls + seq(|s.timeouts|, _ => t1 + QuietPeriod) + seq(|s.timeouts|, _ => t2 + QuietPeriod)
  {
    var es := ResizesAt([t1, t2]) + [Tick(t)];
    ResizesAtPair(t1, t2);
    var s1 := Step(s, Tick(t1));
    var s2 := Step(s1, Resized);
    var s3 := Step(s2, Tick(t2));
    var s4 := Step(s3, Resized);
    var s5 := Step(s4, Tick(t));
    TwoPulses(s, t1, t2, t);
    var r4: seq<Event> := [];
    RunCons(s4, Tick(t), r4);
    var r3 := [Tick(t)] + r4;
    RunCons(s3, Resized, r3);
    var r2 := [Resized] + r3;
    RunCons(s2, Tick(t2), r2);
    var r1 := [Tick(t2)] + r2;
    RunCons(s1, Resized, r1);
    var r0 := [Resized] + r1;
    RunCons(s, Tick(t1), r0);
    assert es == [Tick(t1)] + r0;
  }

  lemma ResizesAtPair(t1: int, t2: int)
    ensures ResizesAt([t1, t2]) == [Tick(t1), Resized, Tick(t2), Resized]
  {
    assert [t1, t2][1..] == [t2];
    assert ResizesAt([t2]) == [Tick(t2), Resized] + ResizesAt([]);
  }

  /** The five steps of two separated resize events followed by a late tick. */
  lemma TwoPulses(s: State, t1: int, t2: int, t: int)
    requires !AnyPending(s.timeouts)
    requires s.now <= t1 && t1 + QuietPeriod <= t2 && t2 + QuietPeriod <= t
    ensures Step(Step(Step(Step(s, Tick(t1)), Resized), Tick(t2)), Resized).now == t2
    ensures Step(Step(Step(Step(Step(s, Tick(t1)), Resized), Tick(t2)), Resized), Tick(t)).calls
         == s.calls + seq(|s.timeouts|, _ => t1 + QuietPeriod) + seq(|s.timeouts|, _ => t2 + QuietPeriod)
  {
    DueNone(s.timeouts, t1);
    var s2 := Step(Step(s, Tick(t1)), Resized);
    DueAll(s2.timeouts, t1 + QuietPeriod, t2);
    var s4 := Step(Step(s2, Tick(t2)), Resized);
    DueAll(s4.timeouts, t2 + QuietPeriod, t);
  }
}
