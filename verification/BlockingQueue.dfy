/**
 The bounded blocking queue (`BlockingQueue`): a deque under a mutex with two
 condition variables.

 A state machine over any number of threads: one action for each critical
 section, each notification (sent after the mutex is released) and each
 wake-up, wanted or spurious.  Threads are counted by where they are.
 */
module BlockingQueue {

  type Element = int

  /** Threads on one condition variable: asleep, woken and on their way to the mutex, and about to notify. */
  datatype Waiters = Waiters(asleep: nat, awake: nat, toNotify: nat)

  datatype State = State(
    capacity: nat,
    queue: seq<Element>,
    producers: Waiters,                     // on _cond_queue_not_full
    toNotifyAll: nat,                       // threads about to notify all producers
    consumers: Waiters,                     // on _cond_queue_not_empty
    pushed: seq<Element>,                   // history
    popped: seq<Element>)

  datatype Action =
    | Push(x: Element, resumed: bool)       // the critical section, entered or re-entered
    | Pop(resumed: bool)
    | PopAll
    | NotifyNotEmpty
    | NotifyOneNotFull
    | NotifyAllNotFull
    | SpuriousProducer
    | SpuriousConsumer

  function Initial(capacity: nat): State {
    State(capacity, [], Waiters(0, 0, 0), 0, Waiters(0, 0, 0), [], [])
  }

  predicate Enabled(s: State, a: Action) {
    match a
    case Push(_, resumed) => resumed ==> s.producers.awake > 0
    case Pop(resumed) => resumed ==> s.consumers.awake > 0
    case PopAll => true
    case NotifyNotEmpty => s.consumers.toNotify > 0
    case NotifyOneNotFull => s.producers.toNotify > 0
    case NotifyAllNotFull => s.toNotifyAll > 0
    case SpuriousProducer => s.producers.asleep > 0
    case SpuriousConsumer => s.consumers.asleep > 0
  }

  /** A thread enters the critical section, from outside or from its sleep. */
  function Entered(w: Waiters, resumed: bool): Waiters
    requires resumed ==> w.awake > 0
  {
    if resumed then w.(awake := w.awake - 1) else w
  }

  /** `notify_one` wakes a sleeper if there is one. */
  function NotifiedOne(w: Waiters): Waiters
    requires w.toNotify > 0
  {
    var w1 := w.(toNotify := w.toNotify - 1);
    if w.asleep > 0 then Woken(w1) else w1
  }

  function Woken(w: Waiters): Waiters
    requires w.asleep > 0
  {
    w.(asleep := w.asleep - 1, awake := w.awake + 1)
  }

  function Apply(s: State, a: Action): State
    requires Enabled(s, a)
  {
    match a
    case Push(x, resumed) =>
      var p := Entered(s.producers, resumed);
      if |s.queue| >= s.capacity then s.(producers := p.(asleep := p.asleep + 1))
      else s.(queue := s.queue + [x], pushed := s.pushed + [x], producers := p,
              consumers := s.consumers.(toNotify := s.consumers.toNotify + 1))
    case Pop(resumed) =>
      var c := Entered(s.consumers, resumed);
      if s.queue == [] then s.(consumers := c.(asleep := c.asleep + 1))
      else s.(queue := s.queue[1..], popped := s.popped + [s.queue[0]], consumers := c,
              producers := s.producers.(toNotify := s.producers.toNotify + 1))
    case PopAll => s.(queue := [], popped := s.popped + s.queue, toNotifyAll := s.toNotifyAll + 1)
    case NotifyNotEmpty => s.(consumers := NotifiedOne(s.consumers))
    case NotifyOneNotFull => s.(producers := NotifiedOne(s.producers))
    case NotifyAllNotFull =>
      var p := s.producers;
      s.(toNotifyAll := s.toNotifyAll - 1, producers := p.(asleep := 0, awake := p.awake + p.asleep))
    case SpuriousProducer => s.(producers := Woken(s.producers))
    case SpuriousConsumer => s.(consumers := Woken(s.consumers))
  }

  ghost predicate Runs(s: State, actions: seq<Action>, s': State)
    decreases |actions|
  {
    if actions == [] then s == s'
    else Enabled(s, actions[0]) && Runs(Apply(s, actions[0]), actions[1..], s')
  }

  ghost predicate Reachable(s: State) {
    exists actions :: Runs(Initial(s.capacity), actions, s)
  }

  // -------------------------------------------------------------------- invariant

  /** While somebody sleeps, whatever they wait for is matched by threads awake or about to wake one. */
  predicate IsCovered(w: Waiters, available: nat) {
    w.asleep > 0 ==> available <= w.awake + w.toNotify
  }

  predicate Inv(s: State) {
    && |s.queue| <= s.capacity
    && s.popped + s.queue == s.pushed
    && IsCovered(s.consumers, |s.queue|)
    && (s.toNotifyAll == 0 ==> IsCovered(s.producers, s.capacity - |s.queue|))
  }

  lemma StepKeepsInv(s: State, a: Action)
    requires Inv(s) && Enabled(s, a)
    ensures Inv(Apply(s, a)) && Apply(s, a).capacity == s.capacity
  {
  }

  lemma {:induction false} RunKeepsInv(s: State, actions: seq<Action>, s': State)
    requires Inv(s) && Runs(s, actions, s')
    ensures Inv(s')
    decreases |actions|
  {
    hide Apply;
    if actions != [] {
      StepKeepsInv(s, actions[0]);
      RunKeepsInv(Apply(s, actions[0]), actions[1..], s');
    }
  }

  lemma ReachableInv(s: State)
    requires Reachable(s)
    ensures Inv(s)
  {
    var actions :| Runs(Initial(s.capacity), actions, s);
    assert Initial(s.capacity).popped + Initial(s.capacity).queue == [];
    RunKeepsInv(Initial(s.capacity), actions, s);
  }

  // --------------------------------------------------------------------- theorems

  /** Every element comes out once, in the order it went in, and the queue never outgrows its capacity. */
  lemma BoundedFifo(s: State)
    requires Reachable(s)
    ensures s.popped + s.queue == s.pushed && |s.queue| <= s.capacity
  {
    ReachableInv(s);
  }

  /** No notification on its way to producers, and none of them running. */
  predicate ProducersAreQuiet(s: State) {
    s.producers.awake == 0 && s.producers.toNotify == 0 && s.toNotifyAll == 0
  }

  predicate ConsumersAreQuiet(s: State) {
    s.consumers.awake == 0 && s.consumers.toNotify == 0
  }

  /** No lost notification: with none on its way, producers sleep only at a full queue, consumers at an empty one. */
  lemma SleepersHaveNothingToDo(s: State)
    requires Reachable(s)
    ensures ProducersAreQuiet(s) && s.producers.asleep > 0 ==> |s.queue| == s.capacity
    ensures ConsumersAreQuiet(s) && s.consumers.asleep > 0 ==> s.queue == []
    ensures s.capacity > 0 && ProducersAreQuiet(s) && ConsumersAreQuiet(s) ==>
      s.producers.asleep == 0 || s.consumers.asleep == 0
  {
    ReachableInv(s);
  }

  // ------------------------------------------------------------------ the calls

  /** A push appends its element if there is room, and else changes nothing and sleeps. */
  lemma PushAppends(s: State, x: Element, resumed: bool)
    requires Reachable(s) && (resumed ==> s.producers.awake > 0)
    ensures
      && Enabled(s, Push(x, resumed))
      && var s' := Apply(s, Push(x, resumed));
      if |s.pushed| - |s.popped| < s.capacity then s'.pushed == s.pushed + [x] && s'.popped == s.popped
      else s'.pushed == s.pushed && s'.popped == s.popped && s'.producers.asleep == s.producers.asleep + 1
  {
    ReachableInv(s);
    assert |s.pushed| == |s.popped| + |s.queue|;
  }

  /** A pop takes the oldest element there is, and sleeps if there is none. */
  lemma PopTakesOldest(s: State, resumed: bool)
    requires Reachable(s) && (resumed ==> s.consumers.awake > 0)
    ensures |s.popped| <= |s.pushed|
    ensures
      && Enabled(s, Pop(resumed))
      && var s' := Apply(s, Pop(resumed));
      if |s.popped| < |s.pushed| then s'.popped == s.popped + [s.pushed[|s.popped|]] && s'.pushed == s.pushed
      else s'.popped == s.popped && s'.pushed == s.pushed && s'.consumers.asleep == s.consumers.asleep + 1
  {
    ReachableInv(s);
    assert |s.pushed| == |s.popped| + |s.queue|;
    assert s.queue != [] ==> s.pushed[|s.popped|] == s.queue[0];
  }

  /** `pop_all` takes everything. */
  lemma PopAllTakesAll(s: State)
    requires Reachable(s)
    ensures Enabled(s, PopAll)
    ensures Apply(s, PopAll).popped == s.pushed == Apply(s, PopAll).pushed && Apply(s, PopAll).queue == []
  {
    ReachableInv(s);
  }

  predicate IsNotification(a: Action) {
    a.NotifyNotEmpty? || a.NotifyOneNotFull? || a.NotifyAllNotFull?
  }

  /**
   Notifications on their way can always be sent, and when they have been, somebody who
   sleeps although there is something for them has a fellow awake.
   */
  lemma {:induction false} NotificationsSettle(s: State) returns (actions: seq<Action>, s': State)
    requires Inv(s)
    ensures Runs(s, actions, s') && forall k :: 0 <= k < |actions| ==> IsNotification(actions[k])
    ensures s'.consumers.toNotify == s'.producers.toNotify == s'.toNotifyAll == 0 && s'.queue == s.queue
    ensures s'.consumers.asleep > 0 && s.queue != [] ==> s'.consumers.awake > 0
    ensures s'.producers.asleep > 0 && |s.queue| < s.capacity ==> s'.producers.awake > 0
    decreases s.consumers.toNotify + s.producers.toNotify + s.toNotifyAll
  {
    if s.consumers.toNotify == s.producers.toNotify == s.toNotifyAll == 0 {
      actions, s' := [], s;
    } else {
      var a := if s.consumers.toNotify > 0 then NotifyNotEmpty
        else if s.producers.toNotify > 0 then NotifyOneNotFull else NotifyAllNotFull;
      StepKeepsInv(s, a);
      var later;
      later, s' := NotificationsSettle(Apply(s, a));
      actions := [a] + later;
      assert actions[1..] == later;
    }
  }

  /** The operating system may wake a sleeper for no reason. */
  lemma SleepersMayWake(s: State)
    ensures s.producers.asleep > 0 ==>
      && Enabled(s, SpuriousProducer)
      && Apply(s, SpuriousProducer) ==
           s.(producers := s.producers.(asleep := s.producers.asleep - 1, awake := s.producers.awake + 1))
    ensures s.consumers.asleep > 0 ==>
      && Enabled(s, SpuriousConsumer)
      && Apply(s, SpuriousConsumer) ==
           s.(consumers := s.consumers.(asleep := s.consumers.asleep - 1, awake := s.consumers.awake + 1))
  {
  }

  // ---------------------------------------------------------------- every thread

  function CountOf(actions: seq<Action>, p: Action -> bool): nat
    decreases |actions|
  {
    if actions == [] then 0 else (if p(actions[0]) then 1 else 0) + CountOf(actions[1..], p)
  }

  /** Threads inside a wait. */
  function Inside(w: Waiters): nat {
    w.asleep + w.awake
  }

  /** Calls of `push` and `pop` begun, and notifications sent. */
  predicate BeginsPush(a: Action) { a.Push? && !a.resumed }

  predicate BeginsPop(a: Action) { a.Pop? && !a.resumed }

  predicate TellsNotEmpty(a: Action) { a.NotifyNotEmpty? }

  predicate TellsNotFull(a: Action) { a.NotifyOneNotFull? }

  predicate BeginsPopAll(a: Action) { a.PopAll? }

  predicate TellsAllNotFull(a: Action) { a.NotifyAllNotFull? }

  lemma AccountStep(s: State, a: Action)
    requires Enabled(s, a)
    ensures
      var s' := Apply(s, a);
      && Inside(s'.producers) + |s'.pushed| == Inside(s.producers) + |s.pushed| + (if BeginsPush(a) then 1 else 0)
      && s'.consumers.toNotify + (if TellsNotEmpty(a) then 1 else 0) + |s.pushed| == s.consumers.toNotify + |s'.pushed|
      && Inside(s'.consumers) + s'.producers.toNotify + (if TellsNotFull(a) then 1 else 0) ==
           Inside(s.consumers) + s.producers.toNotify + (if BeginsPop(a) then 1 else 0)
      && s'.toNotifyAll + (if TellsAllNotFull(a) then 1 else 0) == s.toNotifyAll + (if BeginsPopAll(a) then 1 else 0)
  {
  }

  lemma {:induction false} AccountRun(s: State, actions: seq<Action>, s': State)
    requires Runs(s, actions, s')
    ensures Inside(s'.producers) + |s'.pushed| == Inside(s.producers) + |s.pushed| + CountOf(actions, BeginsPush)
    ensures s'.consumers.toNotify + CountOf(actions, TellsNotEmpty) + |s.pushed| == s.consumers.toNotify + |s'.pushed|
    ensures Inside(s'.consumers) + s'.producers.toNotify + CountOf(actions, TellsNotFull) ==
      Inside(s.consumers) + s.producers.toNotify + CountOf(actions, BeginsPop)
    ensures s'.toNotifyAll + CountOf(actions, TellsAllNotFull) == s.toNotifyAll + CountOf(actions, BeginsPopAll)
    decreases |actions|
  {
    hide Apply, Enabled;
    if actions != [] {
      AccountStep(s, actions[0]);
      AccountRun(Apply(s, actions[0]), actions[1..], s');
    }
  }

  /**
   No call and no notification is lost or made up: every push begun has appended its
   element or is still inside, every element appended has its notification sent or about to
   be, every pop begun is inside or has its notification sent or about to be, and so has
   every `pop_all`.
   */
  lemma EveryCallIsAccountedFor(capacity: nat, actions: seq<Action>, s: State)
    requires Runs(Initial(capacity), actions, s)
    ensures CountOf(actions, BeginsPush) == |s.pushed| + Inside(s.producers)
    ensures |s.pushed| == CountOf(actions, TellsNotEmpty) + s.consumers.toNotify
    ensures CountOf(actions, BeginsPop) == Inside(s.consumers) + s.producers.toNotify + CountOf(actions, TellsNotFull)
    ensures CountOf(actions, BeginsPopAll) == CountOf(actions, TellsAllNotFull) + s.toNotifyAll
  {
    hide Runs, CountOf;
    AccountRun(Initial(capacity), actions, s);
  }
}
