/**
 * The `Debouncer`: it keeps the last value it was called with and one weak,
 * non-repeating timer. Each call invalidates the pending timer and schedules
 * a new one `delay` seconds later; when the run loop reaches that deadline
 * the timer fires `fireNow`, which hands the stored value to the callback,
 * and the run loop then releases the timer, so the weak slot becomes empty.
 *
 * Time is a logical clock in seconds. The callback is recorded as the
 * sequence of values it has received.
 */
module Debouncing {
  import opened Wrappers

  /** The interval Timer.scheduledTimer uses in place of a non-positive one (0.1 ms). */
  const MinimumTimerInterval: real := 0.0001

  /** The interval a scheduled timer actually waits for a requested `delay`. */
  function TimerInterval(delay: real): (d: real)
    ensures d > 0.0
    ensures delay > 0.0 ==> d == delay
    ensures delay <= 0.0 ==> d == MinimumTimerInterval
  {
    if delay <= 0.0 then MinimumTimerInterval else delay
  }

  /**
   * The debouncer's observable state: the stored value, the deadline of the
   * pending timer (None when the weak slot is empty) and the values the
   * callback has received so far.
   */
  datatype DebounceState<T> = DebounceState(value: T, deadline: Option<real>, fired: seq<T>)

  /** What happens to a debouncer: a `call` at time `at`, or the run loop reaching time `at`. */
  datatype Event<T> = Notify(v: T, at: real) | Elapse(at: real)

  /** The pending timer of `s` is due at time `at`. */
  predicate Due<T>(s: DebounceState<T>, at: real) {
    s.deadline.Some? && s.deadline.value <= at
  }

  function Step<T>(s: DebounceState<T>, e: Event<T>, delay: real): (r: DebounceState<T>) {
    match e
    case Notify(v, at) => DebounceState(v, Some(at + TimerInterval(delay)), s.fired)
    case Elapse(at) =>
      if Due(s, at) then DebounceState(s.value, None, s.fired + [s.value]) else s
  }

  function Run<T>(s: DebounceState<T>, es: seq<Event<T>>, delay: real): (r: DebounceState<T>)
    decreases |es|
  {
    if es == [] then s else Run(Step(s, es[0], delay), es[1..], delay)
  }

  /** The value of the last `Notify` in `es`, if there is one. */
  function LastNotified<T>(es: seq<Event<T>>): (r: Option<T>)
    ensures r.None? <==> forall i | 0 <= i < |es| :: es[i].Elapse?
  {
    if es == [] then None
    else if es[|es| - 1].Notify? then Some(es[|es| - 1].v)
    else LastNotified(es[..|es| - 1])
  }

  /** What `LastNotified` returns is the value of a call after which only time passes. */
  lemma {:induction false} LastNotifiedIsLast<T>(es: seq<Event<T>>)
    requires LastNotified(es).Some?
    ensures exists i | 0 <= i < |es| ::
              es[i].Notify? && es[i].v == LastNotified(es).value && forall j | i < j < |es| :: es[j].Elapse?
  {
    var n := |es| - 1;
    if es[n].Notify? {
      assert es[n].Notify? && es[n].v == LastNotified(es).value;
    } else {
      var front := es[..n];
      LastNotifiedIsLast(front);
      var i :| 0 <= i < |front| && front[i].Notify? && front[i].v == LastNotified(front).value
               && forall j | i < j < |front| :: front[j].Elapse?;
      assert es[i] == front[i];
      assert forall j | i < j < |es| :: es[j].Elapse? by {
        forall j | i < j < |es| ensures es[j].Elapse? {
          if j < n { assert es[j] == front[j]; }
        }
      }
    }
  }

  lemma {:induction false} RunAppend<T>(s: DebounceState<T>, a: seq<Event<T>>, b: seq<Event<T>>, delay: real)
    ensures Run(s, a + b, delay) == Run(Run(s, a, delay), b, delay)
    decreases |a|
  {
    if a == [] {
      assert a + b == b;
    } else {
      assert (a + b)[0] == a[0];
      assert (a + b)[1..] == a[1..] + b;
      RunAppend(Step(s, a[0], delay), a[1..], b, delay);
    }
  }

  /** While the run loop only advances and never reaches the deadline, nothing changes. */
  lemma {:induction false} NoFireBeforeDeadline<T>(s: DebounceState<T>, es: seq<Event<T>>, delay: real)
    requires forall i | 0 <= i < |es| :: es[i].Elapse? && !Due(s, es[i].at)
    ensures Run(s, es, delay) == s
  {
    if es != [] {
      assert es[0].Elapse? && !Due(s, es[0].at);
      assert forall i | 0 <= i < |es[1..]| :: es[1..][i] == es[i + 1];
      NoFireBeforeDeadline(s, es[1..], delay);
    }
  }

  /** A debouncer that was never called has no timer, so time passing never fires the callback. */
  lemma NeverCalledNeverFires<T>(s: DebounceState<T>, es: seq<Event<T>>, delay: real)
    requires s.deadline.None?
    requires forall i | 0 <= i < |es| :: es[i].Elapse?
    ensures Run(s, es, delay) == s
  {
    NoFireBeforeDeadline(s, es, delay);
  }

  /**
   * Between calls the callback fires at most once: exactly once, with the
   * stored value, if the run loop reaches the deadline, and not at all otherwise.
   */
  lemma {:induction false} FiresOnceAfterQuiet<T>(s: DebounceState<T>, es: seq<Event<T>>, delay: real)
    requires forall i | 0 <= i < |es| :: es[i].Elapse?
    ensures Run(s, es, delay).value == s.value
    ensures Run(s, es, delay).fired
         == s.fired + (if exists i | 0 <= i < |es| :: Due(s, es[i].at) then [s.value] else [])
  {
    if es != [] {
      var s' := Step(s, es[0], delay);
      assert forall i | 0 <= i < |es[1..]| :: es[1..][i] == es[i + 1];
      if Due(s, es[0].at) {
        NoFireBeforeDeadline(s', es[1..], delay);
      } else {
        assert s' == s;
        FiresOnceAfterQuiet(s, es[1..], delay);
        assert (exists i | 0 <= i < |es| :: Due(s, es[i].at))
           <==> (exists i | 0 <= i < |es[1..]| :: Due(s, es[1..][i].at));
      }
    }
  }

  /**
   * The stored value is the value of the latest call; a timer is pending only
   * if a call was made (or one was already pending at the start).
   */
  lemma {:induction false} ValueIsLastNotified<T>(s: DebounceState<T>, es: seq<Event<T>>, delay: real)
    ensures Run(s, es, delay).value == (if LastNotified(es).Some? then LastNotified(es).value else s.value)
    ensures Run(s, es, delay).deadline.Some? ==> LastNotified(es).Some? || s.deadline.Some?
  {
    if es != [] {
      var n := |es| - 1;
      ValueIsLastNotified(s, es[..n], delay);
      RunAppend(s, es[..n], [es[n]], delay);
      assert es[..n] + [es[n]] == es;
    }
  }

  /**
   * Whenever time passing fires the callback, it delivers the value of the
   * latest call before that moment, never a superseded one, and never the
   * initial placeholder of a debouncer that had no timer to begin with.
   */
  lemma FiredValueIsLatest<T>(s: DebounceState<T>, es: seq<Event<T>>, at: real, delay: real)
    ensures var before := Run(s, es, delay);
            var after := Run(s, es + [Elapse(at)], delay);
            after.fired == before.fired
            || ((s.deadline.Some? || LastNotified(es).Some?)
                && after.fired == before.fired + [if LastNotified(es).Some? then LastNotified(es).value else s.value])
  {
    ValueIsLastNotified(s, es, delay);
    RunAppend(s, es, [Elapse(at)], delay);
  }

  /** One `call` of a burst: its value and its time. */
  datatype Call<T> = Call(v: T, at: real)

  function Elapses<T>(ts: seq<real>): (es: seq<Event<T>>)
    ensures |es| == |ts|
    ensures forall i | 0 <= i < |ts| :: es[i] == Elapse(ts[i])
  {
    if ts == [] then [] else [Elapse(ts[0])] + Elapses(ts[1..])
  }

  /** Each call followed by the run-loop instants `ticks[k]` observed before the next one. */
  function BurstTrace<T>(calls: seq<Call<T>>, ticks: seq<seq<real>>): (es: seq<Event<T>>)
    requires |ticks| == |calls|
  {
    if calls == [] then []
    else [Notify(calls[0].v, calls[0].at)] + Elapses(ticks[0]) + BurstTrace(calls[1..], ticks[1..])
  }

  /** Consecutive calls come less than the timer interval apart. */
  predicate Spaced<T>(calls: seq<Call<T>>, delay: real) {
    forall k | 0 <= k < |calls| - 1 :: calls[k].at <= calls[k + 1].at < calls[k].at + TimerInterval(delay)
  }

  /**
   * The run loop observes `ticks[k]` after call `k`: no later than the next
   * call, and, after the last call, before its timer is due.
   */
  predicate TicksInside<T>(calls: seq<Call<T>>, ticks: seq<seq<real>>, delay: real) {
    && |ticks| == |calls|
    && forall k, m | 0 <= k < |calls| && 0 <= m < |ticks[k]| ::
         calls[k].at <= ticks[k][m]
         && (if k + 1 < |calls| then ticks[k][m] <= calls[k + 1].at
             else ticks[k][m] < calls[k].at + TimerInterval(delay))
  }

  /**
   * A burst of calls spaced less than the interval apart never fires: after
   * it the stored value is the last call's and one timer is pending, due one
   * interval after the last call.
   */
  lemma {:induction false} BurstNeverFires<T>(s: DebounceState<T>, calls: seq<Call<T>>, ticks: seq<seq<real>>, delay: real)
    requires |calls| > 0
    requires Spaced(calls, delay) && TicksInside(calls, ticks, delay)
    ensures Run(s, BurstTrace(calls, ticks), delay)
         == DebounceState(calls[|calls| - 1].v, Some(calls[|calls| - 1].at + TimerInterval(delay)), s.fired)
    decreases |calls|
  {
    var c := calls[0];
    var s1 := Step(s, Notify(c.v, c.at), delay);
    var rest := BurstTrace(calls[1..], ticks[1..]);
    var quiet: seq<Event<T>> := Elapses(ticks[0]);
    assert BurstTrace(calls, ticks) == [Notify(c.v, c.at)] + quiet + rest;
    RunAppend(s, [Notify(c.v, c.at)] + quiet, rest, delay);
    RunAppend(s, [Notify(c.v, c.at)], quiet, delay);
    forall i | 0 <= i < |quiet|
      ensures quiet[i].Elapse? && !Due(s1, quiet[i].at)
    {
      assert quiet[i].at == ticks[0][i];
      if 1 < |calls| {
        assert ticks[0][i] <= calls[1].at < c.at + TimerInterval(delay);
      }
    }
    NoFireBeforeDeadline(s1, quiet, delay);
    if 1 < |calls| {
      var calls', ticks' := calls[1..], ticks[1..];
      assert Spaced(calls', delay) by {
        forall k | 0 <= k < |calls'| - 1
          ensures calls'[k].at <= calls'[k + 1].at < calls'[k].at + TimerInterval(delay)
        {
          assert calls'[k] == calls[k + 1] && calls'[k + 1] == calls[k + 2];
        }
      }
      assert TicksInside(calls', ticks', delay) by {
        forall k, m | 0 <= k < |calls'| && 0 <= m < |ticks'[k]|
          ensures calls'[k].at <= ticks'[k][m]
          ensures if k + 1 < |calls'| then ticks'[k][m] <= calls'[k + 1].at
                  else ticks'[k][m] < calls'[k].at + TimerInterval(delay)
        {
          assert calls'[k] == calls[k + 1] && ticks'[k] == ticks[k + 1];
        }
      }
      BurstNeverFires(s1, calls', ticks', delay);
    } else {
      assert rest == [];
    }
  }

  /**
   * A burst followed by the run loop advancing: the callback fires exactly
   * once, with the last call's value, if and only if the run loop reaches
   * one interval after the last call.
   */
  lemma BurstFiresOnceWithLastValue<T>(s: DebounceState<T>, calls: seq<Call<T>>, ticks: seq<seq<real>>,
                                       later: seq<real>, delay: real)
    requires |calls| > 0
    requires Spaced(calls, delay) && TicksInside(calls, ticks, delay)
    ensures var last := calls[|calls| - 1];
            Run(s, BurstTrace(calls, ticks) + Elapses(later), delay).fired
            == s.fired + (if exists i | 0 <= i < |later| :: last.at + TimerInterval(delay) <= later[i]
                          then [last.v] else [])
  {
    var last := calls[|calls| - 1];
    var es: seq<Event<T>> := Elapses(later);
    RunAppend(s, BurstTrace(calls, ticks), es, delay);
    BurstNeverFires(s, calls, ticks, delay);
    var s1 := Run(s, BurstTrace(calls, ticks), delay);
    FiresOnceAfterQuiet(s1, es, delay);
    assert (exists i | 0 <= i < |es| :: Due(s1, es[i].at))
       <==> (exists i | 0 <= i < |later| :: last.at + TimerInterval(delay) <= later[i]) by {
      forall i | 0 <= i < |es| ensures es[i].at == later[i] { }
    }
  }

  /** Calls at 0 s and 1 s with a 5 s delay: nothing at 5 s, the second value at 6 s. */
  lemma ScenarioTwoCalls<T>(s: DebounceState<T>, v1: T, v2: T)
    ensures var es := [Notify(v1, 0.0), Notify(v2, 1.0)];
            Run(s, es + [Elapse(5.0)], 5.0).fired == s.fired
            && Run(s, es + [Elapse(5.0), Elapse(6.0)], 5.0).fired == s.fired + [v2]
  {
    var calls, ticks := [Call(v1, 0.0), Call(v2, 1.0)], [[], []];
    var es := [Notify(v1, 0.0), Notify(v2, 1.0)];
    assert BurstTrace(calls, ticks) == es by {
      assert BurstTrace(calls[1..], ticks[1..]) == [Notify(v2, 1.0)];
    }
    assert Elapses<T>([5.0]) == [Elapse(5.0)];
    assert Elapses<T>([5.0, 6.0]) == [Elapse(5.0), Elapse(6.0)];
    BurstFiresOnceWithLastValue(s, [Call(v1, 0.0), Call(v2, 1.0)], [[], []], [5.0], 5.0);
    BurstFiresOnceWithLastValue(s, [Call(v1, 0.0), Call(v2, 1.0)], [[], []], [5.0, 6.0], 5.0);
  }

  /**
   * The Debouncer class. `timer` is the deadline of the timer held in the
   * weak slot; `fired` records the callback's invocations.
   */
  class Debouncer<T> {
    const delay: real
    var value: T
    var timer: Option<real>
    var fired: seq<T>

    ghost function Snapshot(): DebounceState<T>
      reads this
    {
      DebounceState(value, timer, fired)
    }

    /** `init(delay:callback:)`; `initial` stands for the placeholder the value starts with. */
    constructor (delay: real, initial: T)
      ensures this.delay == delay
      ensures Snapshot() == DebounceState(initial, None, [])
    {
      this.delay := delay;
      value := initial;
      timer := None;
      fired := [];
    }

    /** `call(value:)`: store the value, invalidate the pending timer, schedule a fresh one. */
    method Call(v: T, now: real)
      modifies this
      ensures value == v && timer == Some(now + TimerInterval(delay)) && fired == old(fired)
      ensures Snapshot() == Step(old(Snapshot()), Notify(v, now), delay)
    {
      value := v;
      timer := None;
      var nextTimer := now + TimerInterval(delay);
      timer := Some(nextTimer);
    }

    /** `fireNow`: hand the stored value to the callback. */
    method FireNow()
      modifies this
      ensures fired == old(fired) + [value]
      ensures value == old(value) && timer == old(timer)
    {
      fired := fired + [value];
    }

    /**
     * The run loop reaching time `now`: a due timer fires once and, being
     * non-repeating, is then released, which empties the weak slot.
     */
    method Tick(now: real)
      modifies this
      ensures Snapshot() == Step(old(Snapshot()), Elapse(now), delay)
    {
      if timer.Some? && timer.value <= now {
        FireNow();
        timer := None;
      }
    }
  }
}
