/**
 A timer (`Timer`): how often its callback runs, whatever the times at which the
 event loop gets to expire it.  Times are nanoseconds; overflow of the 64-bit
 counter is not part of this model.
 */
module Timer {
  import opened Wrappers

  /** `interval` is 0 for a one-off timer, `left` is -1 for endless repetition. */
  datatype TimerValue = TimerValue(expiration: int, interval: int, left: int)

  predicate IsTimer(t: TimerValue) {
    t.interval >= 0 && t.left >= -1
  }

  type ValidTimer = t: TimerValue | IsTimer(t) witness TimerValue(0, 0, 0)

  /** The timer the constructor makes of any arguments. */
  function NewTimer(expiration: int, interval: int, repetitions: int): (t: TimerValue)
    ensures IsTimer(t)
  {
    TimerValue(expiration, Max(0, interval), Max(-1, repetitions))
  }

  /** What is left of a timer after its callback has run, and how often that was. */
  datatype Outcome = Outcome(timer: TimerValue, valid: bool, runs: nat)

  /** `expire_once`: the callback runs, then the timer moves on if it may. */
  function ExpiredOnce(t: TimerValue): Outcome {
    if t.interval == 0 || t.left == 0 then Outcome(t, false, 1)
    else Outcome(TimerValue(t.expiration + t.interval, t.interval, if t.left > 0 then t.left - 1 else t.left), true, 1)
  }

  /** `expire_until`: the callback runs until the timer is due later than `time` or has ended. */
  function ExpiredUntil(t: TimerValue, time: int): (o: Outcome)
    requires IsTimer(t)
    ensures IsTimer(o.timer) && o.timer.interval == t.interval
    ensures o.valid ==> o.timer.expiration > time && o.timer.expiration > t.expiration
    decreases time - t.expiration
  {
    var once := ExpiredOnce(t);
    if !once.valid || once.timer.expiration > time then once
    else
      var more := ExpiredUntil(once.timer, time);
      more.(runs := 1 + more.runs)
  }

  // ------------------------------------------------------------------ how often

  /** The runs due up to `time` of a timer first due at `start`, when nothing limits them. */
  function Due(start: int, interval: int, time: int): (n: nat)
    requires interval >= 0 && start <= time
    ensures n >= 1
  {
    if interval == 0 then 1 else (time - start) / interval + 1
  }

  /** The runs due, cut off after the first one and the repetitions left. */
  function DueWithinLimit(t: TimerValue, time: int): nat
    requires IsTimer(t)
  {
    if time < t.expiration then 0
    else
      var due := Due(t.expiration, t.interval, time);
      if t.left == -1 || t.interval == 0 then due else Min(t.left + 1, due)
  }

  lemma QuotientIsUnique(x: int, i: int, q: int, r: int)
    requires i > 0 && x == i * q + r && 0 <= r < i
    ensures x / i == q
  {
    var d := x / i - q;
    assert i * d == r - x % i;
    assert d >= 1 ==> i * d >= i;
    assert d <= -1 ==> i * d <= -i;
  }

  lemma DueOneIntervalLater(start: int, interval: int, time: int)
    requires interval > 0 && start <= time
    ensures Due(start, interval, time) ==
      if start + interval <= time then 1 + Due(start + interval, interval, time) else 1
  {
    var x, i := time - start, interval;
    var q, r := (x - i) / i, (x - i) % i;
    assert x == i * (q + 1) + r;
    QuotientIsUnique(x, i, q + 1, r);
    if x < i { QuotientIsUnique(x, i, 0, x); }
  }

  /** In closed form: the runs, the next expiration, and whether repetitions remain. */
  lemma {:induction false} ExpiredUntilCounts(t: TimerValue, time: int)
    requires IsTimer(t) && t.expiration <= time
    ensures
      var o := ExpiredUntil(t, time);
      && o.runs == DueWithinLimit(t, time)
      && (o.valid <==> t.interval > 0 && (t.left == -1 || o.runs <= t.left))
      && (o.valid ==> o.timer.expiration == t.expiration + o.runs * t.interval)
      && (o.valid ==> o.timer.left == if t.left == -1 then -1 else t.left - o.runs)
    decreases time - t.expiration
  {
    hide Due;
    if t.interval > 0 {
      DueOneIntervalLater(t.expiration, t.interval, time);
      var once := ExpiredOnce(t);
      if once.valid && once.timer.expiration <= time { ExpiredUntilCounts(once.timer, time); }
    } else {
      assert Due(t.expiration, 0, time) == 1 by { DueOfOneOff(t.expiration, time); }
    }
  }

  lemma DueOfOneOff(start: int, time: int)
    requires start <= time
    ensures Due(start, 0, time) == 1
  {
  }

  /** Expiring at one time and again at a later one runs the callback as often as expiring at the later one. */
  lemma {:induction false} ExpiringEarlierIsNoLoss(t: TimerValue, early: int, late: int)
    requires IsTimer(t) && t.expiration <= early <= late
    ensures
      var o := ExpiredUntil(t, early);
      DueWithinLimit(t, late) == o.runs + if o.valid then DueWithinLimit(o.timer, late) else 0
    decreases early - t.expiration
  {
    hide Due;
    if t.interval > 0 {
      DueOneIntervalLater(t.expiration, t.interval, late);
      var once := ExpiredOnce(t);
      if once.valid && once.timer.expiration <= early { ExpiringEarlierIsNoLoss(once.timer, early, late); }
    } else {
      DueOfOneOff(t.expiration, early);
      DueOfOneOff(t.expiration, late);
    }
  }

  // ----------------------------------------------------- whatever the poll schedule

  predicate IsSchedule(times: seq<int>) {
    forall j, k :: 0 <= j < k < |times| ==> times[j] <= times[k]
  }

  /** The timer of an event loop that gets to expire timers at the given times, if it is still there. */
  function RunsOver(t: TimerValue, times: seq<int>): nat
    requires IsTimer(t)
    decreases |times|
  {
    if times == [] then 0
    else if times[0] < t.expiration then RunsOver(t, times[1..])
    else
      var o := ExpiredUntil(t, times[0]);
      o.runs + if o.valid then RunsOver(o.timer, times[1..]) else 0
  }

  /** However the loop's wake-ups are spread, only the last of them decides how often the callback has run. */
  lemma {:induction false} PollScheduleIndependence(t: TimerValue, times: seq<int>)
    requires IsTimer(t) && IsSchedule(times) && times != []
    ensures RunsOver(t, times) == DueWithinLimit(t, times[|times| - 1])
    decreases |times|
  {
    hide DueWithinLimit, ExpiredUntil;
    var first, last := times[0], times[|times| - 1];
    if first < t.expiration {
      if |times| == 1 { NothingDue(t, first); } else { PollScheduleIndependence(t, times[1..]); }
    } else {
      var o := ExpiredUntil(t, first);
      ExpiringEarlierIsNoLoss(t, first, last);
      if |times| == 1 {
        if o.valid { NothingDue(o.timer, last); }
      } else if o.valid {
        PollScheduleIndependence(o.timer, times[1..]);
      }
    }
  }

  /**
   In terms of what the timer was made from: a first expiration, an interval and a
   number of repetitions, where a negative interval counts as none and a negative number
   as endless.  By time `last` the callback has run once if there is no interval,
   and else once and then once per interval gone by, within the repetitions.
   */
  lemma CallbackRuns(expiration: int, interval: int, repetitions: int, times: seq<int>)
    requires IsSchedule(times) && times != []
    ensures
      var last := times[|times| - 1];
      RunsOver(NewTimer(expiration, interval, repetitions), times) ==
        if last < expiration then 0
        else if interval <= 0 then 1
        else if repetitions < 0 then (last - expiration) / interval + 1
        else Min(repetitions, (last - expiration) / interval) + 1
  {
    hide RunsOver;
    PollScheduleIndependence(NewTimer(expiration, interval, repetitions), times);
  }

  lemma NothingDue(t: TimerValue, time: int)
    requires IsTimer(t) && time < t.expiration
    ensures DueWithinLimit(t, time) == 0
  {
  }

  // ---------------------------------------------------------------- the class

  class Timer {
    var expiration: int
    var interval: int
    var left: int
    ghost var runs: nat                     // calls of the callback

    function Value(): TimerValue
      reads this
    {
      TimerValue(expiration, interval, left)
    }

    constructor (expiration: int, interval: int, repetitions: int)
      ensures Value() == NewTimer(expiration, interval, repetitions) && runs == 0
    {
      this.expiration := expiration;
      this.interval := Max(0, interval);
      left := Max(-1, repetitions);
      runs := 0;
    }

    method ExpireOnce() returns (valid: bool)
      modifies this
      ensures runs == old(runs) + 1
      ensures Outcome(Value(), valid, 1) == ExpiredOnce(old(Value()))
    {
      runs := runs + 1;
      if interval == 0 || left == 0 { return false; }
      expiration := expiration + interval;
      if left > 0 { left := left - 1; }
      valid := true;
    }

    method ExpireUntil(time: int) returns (valid: bool)
      requires IsTimer(Value())
      modifies this
      ensures runs >= old(runs)
      ensures Outcome(Value(), valid, runs - old(runs)) == ExpiredUntil(old(Value()), time)
      ensures old(expiration) <= time ==> runs == old(runs) + DueWithinLimit(old(Value()), time)
    {
      if expiration <= time { ExpiredUntilCounts(Value(), time); }
      while true
        invariant IsTimer(Value()) && interval == old(interval) && runs >= old(runs)
        invariant runs > old(runs) ==> expiration <= time
        invariant
          var rest := ExpiredUntil(Value(), time);
          ExpiredUntil(old(Value()), time) == rest.(runs := runs - old(runs) + rest.runs)
        decreases time - expiration
      {
        valid := ExpireOnce();
        if !valid || expiration > time { break; }
      }
    }
  }
}
