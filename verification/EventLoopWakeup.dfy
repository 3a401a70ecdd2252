/**
 How other threads wake an `EventLoop`: functor queues, one eventfd and one
 "pilot lamp" for each, and the stop flag.

 A state machine: one loop thread and any number of caller threads, one action
 for each critical section, compare-and-swap, system call or flag store.  An
 eventfd is a counter; the poller watches it edge-triggered, so it is reported
 once per write.  A functor's place in the history of its queue is its ticket;
 the loop takes functors out of a queue in batches and runs them one by one, and
 a functor that drains the queues itself puts another batch on top of its own.
 */
module EventLoopWakeup {
  import opened Wrappers

  type Functor = int

  /** Where a caller is in `_leave_to_owner_thread` or `ask_to_stop`. */
  datatype Caller =
    | Idle
    | MustCas(queue: nat)                   // pushed (or set the stop flag), lamp not tried yet
    | MustWrite(queue: nat)                 // lit the lamp, eventfd not written yet

  datatype LoopPc =
    | Checking                              // about to test the stop flag
    | Polling(sawStop: bool)                // about to block in epoll_wait
    | Dispatching(ready: seq<nat>)          // eventfds reported and not read yet
    | Clearing(queue: nat, ready: seq<nat>) // eventfd read, lamp not cleared yet
    | Draining(queue: nat)                  // in `_invoke_all_functors`
    | FinalDrain(queue: nat)                // the same, on the way out
    | Exited

  /** Tickets taken out of a queue and not run yet; `running` once the first has been started. */
  datatype Batch = Batch(queue: nat, next: nat, end: nat, running: bool)

  datatype State = State(
    capacity: nat,
    queues: seq<seq<Functor>>,
    counters: seq<nat>,                     // the eventfds
    edges: seq<bool>,                       // written since the poller last reported it
    lamps: seq<bool>,
    needStop: bool,
    triggered: bool,
    loop: LoopPc,
    callers: seq<Caller>,
    pushed: seq<seq<Functor>>,              // history of each queue
    taken: seq<nat>,                        // how many were taken out of it
    batches: seq<Batch>,                    // the innermost drain last
    ran: seq<seq<nat>>,                     // history: tickets in the order they were run
    overtook: seq<bool>)                    // history: a drain took over functors of a batch not finished

  datatype Action =
    // callers
    | Push(caller: nat, queue: nat, functor: Functor)
    | AskToStop(caller: nat)
    | CasLamp(caller: nat)
    | WriteEventfd(caller: nat)
    // the loop
    | CheckStop(pollerIsEmpty: bool)
    | Poll(reported: seq<nat>, otherReady: bool)
    | ReadEventfd
    | ClearLamp
    | EndDispatch
    | PopAll                                // blocking queue: takes everything at once
    | PopOne                                // lock-free queue: takes one at a time ...
    | SeeEmpty                              // ... until a pop finds nothing
    | RunNext                               // starts the next functor of the innermost batch
    | EndBatch
    | EndDrain
    | NestedPopAll(at: nat)                 // a functor or another callback drains on its own
    | NestedPopOne(at: nat)

  predicate IsLoopRunning(pc: LoopPc) {
    !pc.Polling? && !pc.Exited?
  }

  predicate Sized(s: State) {
    1 <= |s.queues| == |s.counters| == |s.edges| == |s.lamps| == |s.pushed|
    && |s.taken| == |s.ran| == |s.overtook| == |s.queues|
  }

  predicate Enabled(s: State, a: Action)
    requires Sized(s)
  {
    var k := |s.queues|;
    match a
    case Push(c, q, _) => c < |s.callers| && q < k && s.callers[c].Idle? && |s.queues[q]| < s.capacity
    case AskToStop(c) => c < |s.callers| && s.callers[c].Idle?
    case CasLamp(c) => c < |s.callers| && s.callers[c].MustCas?
    case WriteEventfd(c) => c < |s.callers| && s.callers[c].MustWrite?
    case CheckStop(_) => s.loop.Checking? && s.batches == []
    case Poll(reported, otherReady) =>
      && s.loop.Polling? && (reported != [] || otherReady)
      && (forall j :: 0 <= j < |reported| ==> reported[j] < k && s.edges[reported[j]] && s.counters[reported[j]] > 0)
      && (forall i, j :: 0 <= i < j < |reported| ==> reported[i] != reported[j])
    case ReadEventfd => s.loop.Dispatching? && s.loop.ready != [] && s.batches == []
    case ClearLamp => s.loop.Clearing? && s.batches == []
    case EndDispatch => s.loop.Dispatching? && s.loop.ready == [] && s.batches == []
    case PopAll => IsDraining(s) && s.loop.queue < k
    case PopOne => IsDraining(s) && s.loop.queue < k && s.queues[s.loop.queue] != []
    case SeeEmpty => IsDraining(s) && s.loop.queue < k && s.queues[s.loop.queue] == []
    case RunNext => s.batches != [] && Innermost(s).next < Innermost(s).end
    case EndBatch => s.batches != [] && Innermost(s).next >= Innermost(s).end
    case EndDrain => IsDraining(s) && s.loop.queue >= k
    case NestedPopAll(q) => q < k && InCallback(s)
    case NestedPopOne(q) => q < k && InCallback(s) && s.queues[q] != []
  }

  predicate IsDraining(s: State) {
    IsInDrain(s.loop) && s.batches == []
  }

  function Innermost(s: State): Batch
    requires s.batches != []
  {
    s.batches[|s.batches| - 1]
  }

  /** User code is running on the loop's thread. */
  predicate InCallback(s: State) {
    IsLoopRunning(s.loop) && (s.batches != [] ==> Innermost(s).running)
  }

  /** Some batch still holds functors of queue q. */
  predicate HasUnfinished(batches: seq<Batch>, q: nat) {
    exists i :: 0 <= i < |batches| && batches[i].queue == q && batches[i].next < batches[i].end
  }

  /** The oldest `count` functors leave the queue for a new innermost batch. */
  function Take(s: State, q: nat, count: nat): (r: State)
    requires Sized(s) && q < |s.queues| && count <= |s.queues[q]|
    ensures r == s.(queues := r.queues, taken := r.taken, batches := r.batches, overtook := r.overtook)
    ensures Sized(r) && r.queues == s.queues[q := s.queues[q][count..]]
  {
    s.(queues := s.queues[q := s.queues[q][count..]],
       taken := s.taken[q := s.taken[q] + count],
       batches := s.batches + [Batch(q, s.taken[q], s.taken[q] + count, false)],
       overtook := s.overtook[q := s.overtook[q] || (count > 0 && HasUnfinished(s.batches, q))])
  }

  /** The innermost batch's next functor is started. */
  function Run(s: State): (r: State)
    requires Sized(s) && s.batches != [] && Innermost(s).queue < |s.queues|
    ensures Sized(r) && r == s.(batches := r.batches, ran := r.ran)
  {
    var b := Innermost(s);
    s.(batches := s.batches[|s.batches| - 1 := b.(next := b.next + 1, running := true)],
       ran := s.ran[b.queue := s.ran[b.queue] + [b.next]])
  }

  function NextQueue(pc: LoopPc): LoopPc
    requires IsInDrain(pc)
  {
    pc.(queue := pc.queue + 1)
  }

  predicate IsCall(a: Action) {
    a.Push? || a.AskToStop? || a.CasLamp? || a.WriteEventfd?
  }

  predicate IsWatch(a: Action) {
    a.CheckStop? || a.Poll? || a.ReadEventfd? || a.ClearLamp? || a.EndDispatch?
  }

  predicate CanAct(s: State, a: Action) {
    Sized(s) && CallersInRange(s) && LoopInRange(s) && BatchesInRange(s) && Enabled(s, a)
  }

  /** The callers' side. */
  function Called(s: State, a: Action): (s': State)
    requires CanAct(s, a) && IsCall(a)
    ensures s' == s.(queues := s'.queues, pushed := s'.pushed, needStop := s'.needStop, callers := s'.callers,
                     lamps := s'.lamps, counters := s'.counters, edges := s'.edges)
    ensures Sized(s') && |s'.queues| == |s.queues| && |s'.callers| == |s.callers|
  {
    match a
    case Push(c, q, f) =>
      s.(queues := s.queues[q := s.queues[q] + [f]], pushed := s.pushed[q := s.pushed[q] + [f]],
         callers := s.callers[c := MustCas(q)])
    case AskToStop(c) => s.(needStop := true, callers := s.callers[c := MustCas(0)])
    case CasLamp(c) =>
      var q := s.callers[c].queue;
      if s.lamps[q] then s.(callers := s.callers[c := Idle])
      else s.(lamps := s.lamps[q := true], callers := s.callers[c := MustWrite(q)])
    case WriteEventfd(c) =>
      var q := s.callers[c].queue;
      s.(counters := s.counters[q := s.counters[q] + 1], edges := s.edges[q := true],
         callers := s.callers[c := Idle])
  }

  /** The loop between drains. */
  function Watched(s: State, a: Action): (s': State)
    requires CanAct(s, a) && IsWatch(a)
    ensures s' == s.(loop := s'.loop, edges := s'.edges, counters := s'.counters, lamps := s'.lamps,
                     triggered := s'.triggered)
    ensures Sized(s')
  {
    match a
    case CheckStop(pollerIsEmpty) =>
      s.(loop := if s.needStop && pollerIsEmpty then FinalDrain(0) else Polling(s.needStop))
    case Poll(reported, _) =>
      s.(loop := Dispatching(reported),
         edges := seq(|s.edges|, i requires 0 <= i < |s.edges| => s.edges[i] && i !in reported))
    case ReadEventfd =>
      s.(loop := Clearing(s.loop.ready[0], s.loop.ready[1..]), counters := s.counters[s.loop.ready[0] := 0])
    case ClearLamp =>
      s.(loop := Dispatching(s.loop.ready), lamps := s.lamps[s.loop.queue := false], triggered := true)
    case EndDispatch => s.(loop := if s.triggered then Draining(0) else Checking)
  }

  /** Taking functors out and running them. */
  function Drained(s: State, a: Action): (s': State)
    requires CanAct(s, a) && !IsCall(a) && !IsWatch(a)
    ensures s' == s.(loop := s'.loop, triggered := s'.triggered, queues := s'.queues, taken := s'.taken,
                     batches := s'.batches, ran := s'.ran, overtook := s'.overtook)
    ensures s'.loop == s.loop || (IsInDrain(s.loop) && (IsInDrain(s'.loop) || s'.loop.Checking? || s'.loop.Exited?))
    ensures Sized(s') && |s'.queues| == |s.queues|
  {
    match a
    case PopAll => Take(s, s.loop.queue, |s.queues[s.loop.queue]|).(loop := NextQueue(s.loop))
    case PopOne => Take(s, s.loop.queue, 1)
    case SeeEmpty => s.(loop := NextQueue(s.loop))
    case RunNext => Run(s)
    case EndBatch => s.(batches := s.batches[..|s.batches| - 1])
    case EndDrain => if s.loop.Draining? then s.(loop := Checking, triggered := false) else s.(loop := Exited)
    case NestedPopAll(q) => Take(s, q, |s.queues[q]|)
    case NestedPopOne(q) => Take(s, q, 1)
  }

  predicate IsInDrain(pc: LoopPc) {
    pc.Draining? || pc.FinalDrain?
  }

  function Apply(s: State, a: Action): (s': State)
    requires CanAct(s, a)
    ensures Sized(s') && |s'.queues| == |s.queues| && |s'.callers| == |s.callers| && s'.capacity == s.capacity
  {
    if IsCall(a) then Called(s, a) else if IsWatch(a) then Watched(s, a) else Drained(s, a)
  }

  predicate CallersInRange(s: State) {
    forall c :: 0 <= c < |s.callers| && !s.callers[c].Idle? ==> s.callers[c].queue < |s.queues|
  }

  predicate BatchesInRange(s: State) {
    && (forall i :: 0 <= i < |s.batches| ==> s.batches[i].queue < |s.queues|)
    && (!IsLoopRunning(s.loop) ==> s.batches == [])
  }

  predicate LoopInRange(s: State) {
    match s.loop
    case Dispatching(ready) => forall j :: 0 <= j < |ready| ==> ready[j] < |s.queues|
    case Clearing(q, ready) => q < |s.queues| && forall j :: 0 <= j < |ready| ==> ready[j] < |s.queues|
    case _ => true
  }

  ghost predicate Runs(s: State, actions: seq<Action>, s': State)
    decreases |actions|
  {
    if actions == [] then s == s'
    else
      CanAct(s, actions[0]) && Runs(Apply(s, actions[0]), actions[1..], s')
  }

  function Initial(capacity: nat, queues: nat, callers: nat): State {
    State(capacity, seq(queues, _ => []), seq(queues, _ => 0), seq(queues, _ => false), seq(queues, _ => false),
          false, false, Checking, seq(callers, _ => Idle), seq(queues, _ => []), seq(queues, _ => 0), [],
          seq(queues, _ => []), seq(queues, _ => false))
  }

  ghost predicate Reachable(s: State) {
    exists queues: nat, callers: nat, actions ::
      queues >= 1 && Runs(Initial(s.capacity, queues, callers), actions, s)
  }

  // ---------------------------------------------------------------- invariant

  predicate IsClearing(pc: LoopPc, q: nat) {
    pc.Clearing? && pc.queue == q
  }

  /** The eventfd was reported in the current round and is still to be read. */
  predicate IsReported(pc: LoopPc, q: nat) {
    match pc
    case Dispatching(ready) => q in ready
    case Clearing(_, ready) => q in ready
    case _ => false
  }

  predicate ReadyIsDistinct(pc: LoopPc) {
    match pc
    case Dispatching(ready) => forall i, j :: 0 <= i < j < |ready| ==> ready[i] != ready[j]
    case Clearing(q, ready) => q !in ready && forall i, j :: 0 <= i < j < |ready| ==> ready[i] != ready[j]
    case _ => true
  }

  ghost predicate SomeoneMustCas(s: State, q: nat) {
    exists c :: 0 <= c < |s.callers| && s.callers[c] == MustCas(q)
  }

  ghost predicate SomeoneMustWrite(s: State, q: nat) {
    exists c :: 0 <= c < |s.callers| && s.callers[c] == MustWrite(q)
  }

  predicate AtMostOneWriter(s: State, q: nat) {
    forall c, d :: 0 <= c < d < |s.callers| ==> !(s.callers[c] == MustWrite(q) && s.callers[d] == MustWrite(q))
  }

  /**
   A lit lamp stands for exactly one wake-up on its way: a pending write, an
   unread count of one, or a count just read.  A dark lamp stands for none.
   */
  ghost predicate OneTokenPerLamp(s: State, q: nat)
    requires Sized(s) && q < |s.queues|
  {
    && (SomeoneMustWrite(s, q) ==> s.lamps[q] && s.counters[q] == 0 && !IsClearing(s.loop, q))
    && (s.counters[q] > 0 ==> s.lamps[q] && s.counters[q] == 1 && !IsClearing(s.loop, q))
    && (IsClearing(s.loop, q) ==> s.lamps[q])
    && (s.lamps[q] ==> SomeoneMustWrite(s, q) || s.counters[q] == 1 || IsClearing(s.loop, q))
  }

  /** An unread count is either an edge the poller has yet to report or one it is dispatching. */
  predicate EdgeIsNotLost(s: State, q: nat)
    requires Sized(s) && q < |s.queues|
  {
    && (s.counters[q] > 0 <==> s.edges[q] || IsReported(s.loop, q))
    && !(s.edges[q] && IsReported(s.loop, q))
  }

  /** The loop will still drain queue q before it polls again. */
  predicate WillDrain(s: State, q: nat) {
    match s.loop
    case Dispatching(_) => s.triggered
    case Clearing(_, _) => s.triggered
    case Draining(next) => next <= q
    case FinalDrain(next) => next <= q
    case _ => false
  }

  ghost predicate QueueIsCovered(s: State, q: nat)
    requires Sized(s) && q < |s.queues|
  {
    s.queues[q] != [] ==> s.lamps[q] || SomeoneMustCas(s, q) || WillDrain(s, q)
  }

  ghost predicate StopIsCovered(s: State)
    requires Sized(s)
  {
    s.needStop && s.loop == Polling(false) ==> s.lamps[0] || SomeoneMustCas(s, 0)
  }

  predicate IsIn(b: Batch, q: nat, ticket: int) {
    b.queue == q && b.next <= ticket < b.end
  }

  /** Every ticket taken has been run once, or waits in one batch. */
  ghost predicate TicketsOk(batches: seq<Batch>, taken: nat, ran: seq<nat>, q: nat) {
    && (forall i :: 0 <= i < |batches| && batches[i].queue == q ==> batches[i].next <= batches[i].end <= taken)
    && (forall i, j, t :: 0 <= i < j < |batches| && IsIn(batches[i], q, t) && batches[j].queue == q ==>
          t < batches[j].next)
    && (forall i, j :: 0 <= i < j < |ran| ==> ran[i] != ran[j])
    && (forall t :: t in ran ==> t < taken && forall i :: 0 <= i < |batches| ==> !IsIn(batches[i], q, t))
    && (forall t: nat :: t < taken && t !in ran ==> exists i :: 0 <= i < |batches| && IsIn(batches[i], q, t))
  }

  predicate IsInOrder(ran: seq<nat>) {
    forall k :: 0 <= k < |ran| ==> ran[k] == k
  }

  /** Two batches of q are unfinished: the inner one, taken later, runs first. */
  predicate WillOvertake(batches: seq<Batch>, q: nat) {
    exists i, j :: 0 <= i < j < |batches| && AreUnfinished(batches, q, i, j)
  }

  predicate AreUnfinished(batches: seq<Batch>, q: nat, i: nat, j: nat)
    requires i < |batches| && j < |batches|
  {
    && batches[i].queue == batches[j].queue == q
    && batches[i].next < batches[i].end && batches[j].next < batches[j].end
  }

  predicate OrderOk(batches: seq<Batch>, taken: nat, ran: seq<nat>, overtook: bool, q: nat) {
    if overtook then !IsInOrder(ran) || WillOvertake(batches, q)
    else IsInOrder(ran) && !WillOvertake(batches, q)
  }

  ghost predicate QueueInv(s: State, q: nat)
    requires Sized(s) && q < |s.queues|
  {
    && AtMostOneWriter(s, q) && OneTokenPerLamp(s, q) && EdgeIsNotLost(s, q) && QueueIsCovered(s, q)
    && s.taken[q] <= |s.pushed[q]| && s.pushed[q][s.taken[q]..] == s.queues[q]
    && |s.queues[q]| <= s.capacity
    && TicketsOk(s.batches, s.taken[q], s.ran[q], q) && OrderOk(s.batches, s.taken[q], s.ran[q], s.overtook[q], q)
  }

  predicate WellFormed(s: State) {
    Sized(s) && CallersInRange(s) && LoopInRange(s) && BatchesInRange(s) && ReadyIsDistinct(s.loop)
  }

  ghost predicate Inv(s: State) {
    && WellFormed(s)
    && (forall q :: 0 <= q < |s.queues| ==> QueueInv(s, q))
    && StopIsCovered(s)
  }

  lemma InvInitial(capacity: nat, queues: nat, callers: nat)
    requires queues >= 1
    ensures Inv(Initial(capacity, queues, callers))
  {
  }

  /** Whether a caller has its write to do after the action. */
  ghost predicate SomeoneWillWrite(s: State, a: Action, q: nat)
    requires WellFormed(s) && Enabled(s, a) && q < |s.queues|
  {
    match a
    case CasLamp(c) => SomeoneMustWrite(s, q) || (s.callers[c].queue == q && !s.lamps[q])
    case WriteEventfd(c) => SomeoneMustWrite(s, q) && s.callers[c].queue != q
    case _ => SomeoneMustWrite(s, q)
  }

  /** What a caller still has to do, apart from the acting caller, is unchanged. */
  lemma CallersAfter(s: State, a: Action, q: nat)
    requires WellFormed(s) && Enabled(s, a) && q < |s.queues| && QueueInv(s, q)
    ensures SomeoneMustWrite(Apply(s, a), q) <==> SomeoneWillWrite(s, a, q)
    ensures SomeoneMustCas(s, q) && !SomeoneMustCas(Apply(s, a), q) ==> a.CasLamp? && s.callers[a.caller].queue == q
    ensures a.Push? && a.queue == q ==> SomeoneMustCas(Apply(s, a), q)
    ensures a.AskToStop? && q == 0 ==> SomeoneMustCas(Apply(s, a), q)
  {
    hide Watched, Drained, Innermost, InCallback, HasUnfinished, TicketsOk, OrderOk, QueueIsCovered, StopIsCovered;
    hide EdgeIsNotLost, ReadyIsDistinct, LoopInRange, BatchesInRange, SomeoneMustWrite, SomeoneMustCas;
    var s' := Apply(s, a);
    match a
    case Push(c, _, _) => OneCallerAfter(s, s', c, q);
    case AskToStop(c) => OneCallerAfter(s, s', c, q);
    case CasLamp(c) => OneCallerAfter(s, s', c, q);
    case WriteEventfd(c) => OneCallerAfter(s, s', c, q);
    case _ => SameCallersAfter(s, s', q);
  }

  lemma OneCallerAfter(s: State, s': State, c: nat, q: nat)
    requires c < |s.callers| == |s'.callers| && s'.callers == s.callers[c := s'.callers[c]] && AtMostOneWriter(s, q)
    ensures SomeoneMustWrite(s', q) <==>
      s'.callers[c] == MustWrite(q) || (SomeoneMustWrite(s, q) && s.callers[c] != MustWrite(q))
    ensures SomeoneMustCas(s, q) ==> SomeoneMustCas(s', q) || s.callers[c] == MustCas(q)
    ensures s'.callers[c] == MustCas(q) ==> SomeoneMustCas(s', q)
  {
    assert forall d :: 0 <= d < |s.callers| && d != c ==> s'.callers[d] == s.callers[d];
  }

  lemma SameCallersAfter(s: State, s': State, q: nat)
    requires s'.callers == s.callers
    ensures SomeoneMustWrite(s', q) == SomeoneMustWrite(s, q) && SomeoneMustCas(s', q) == SomeoneMustCas(s, q)
  {
  }

  lemma WriterStep(s: State, a: Action, q: nat)
    requires WellFormed(s) && Enabled(s, a) && q < |s.queues| && QueueInv(s, q)
    ensures AtMostOneWriter(Apply(s, a), q)
  {
    hide Watched, Drained, Innermost, InCallback, HasUnfinished, TicketsOk, OrderOk, QueueIsCovered, EdgeIsNotLost;
    hide ReadyIsDistinct, LoopInRange, BatchesInRange;
    if a.CasLamp? && s.callers[a.caller] == MustCas(q) && !s.lamps[q] {
      assert forall c :: 0 <= c < |s.callers| ==> s.callers[c] != MustWrite(q) by { assert !SomeoneMustWrite(s, q); }
    }
  }

  lemma TokenStep(s: State, a: Action, q: nat)
    requires WellFormed(s) && Enabled(s, a) && q < |s.queues| && QueueInv(s, q)
    ensures OneTokenPerLamp(Apply(s, a), q)
  {
    CallersAfter(s, a, q);
    WriterExists(s, q);
    hide SomeoneMustCas, SomeoneMustWrite, QueueIsCovered, AtMostOneWriter, TicketsOk, OrderOk;
    if IsCall(a) {
      TokenAfterCall(s, a, q);
    } else if IsWatch(a) {
      TokenAfterWatch(s, a, q);
    } else {
      hide Called, Watched, Drained, Enabled;
      assert OneTokenPerLamp(Drained(s, a), q);
    }
  }

  lemma TokenAfterCall(s: State, a: Action, q: nat)
    requires WellFormed(s) && Enabled(s, a) && IsCall(a) && q < |s.queues| && OneTokenPerLamp(s, q)
    requires a.WriteEventfd? && s.callers[a.caller].queue == q ==> SomeoneMustWrite(s, q)
    requires SomeoneMustWrite(Called(s, a), q) <==> SomeoneWillWrite(s, a, q)
    ensures OneTokenPerLamp(Called(s, a), q)
  {
    hide SomeoneMustWrite, ReadyIsDistinct, LoopInRange, BatchesInRange, InCallback, Innermost;
  }

  lemma TokenAfterWatch(s: State, a: Action, q: nat)
    requires WellFormed(s) && Enabled(s, a) && IsWatch(a) && q < |s.queues|
    requires OneTokenPerLamp(s, q) && EdgeIsNotLost(s, q)
    requires SomeoneMustWrite(Watched(s, a), q) <==> SomeoneMustWrite(s, q)
    ensures OneTokenPerLamp(Watched(s, a), q)
  {
    hide SomeoneMustWrite, ReadyIsDistinct, CallersInRange, BatchesInRange, InCallback, Innermost;
    assert a.ReadEventfd? && s.loop.ready[0] == q ==> IsReported(s.loop, q);
  }

  lemma WriterExists(s: State, q: nat)
    ensures forall c :: 0 <= c < |s.callers| && s.callers[c] == MustWrite(q) ==> SomeoneMustWrite(s, q)
  {
  }

  lemma EdgeStep(s: State, a: Action, q: nat)
    requires WellFormed(s) && Enabled(s, a) && q < |s.queues| && QueueInv(s, q)
    ensures EdgeIsNotLost(Apply(s, a), q)
  {
    hide Take, Run, Innermost, InCallback, HasUnfinished, TicketsOk, OrderOk;
    if IsCall(a) {
      EdgeAfterCall(s, a, q);
    } else if IsWatch(a) {
      EdgeAfterWatch(s, a, q);
    } else {
      hide Drained;
      assert EdgeIsNotLost(Drained(s, a), q);
    }
  }

  lemma EdgeAfterCall(s: State, a: Action, q: nat)
    requires WellFormed(s) && Enabled(s, a) && IsCall(a) && q < |s.queues|
    requires EdgeIsNotLost(s, q) && OneTokenPerLamp(s, q)
    ensures EdgeIsNotLost(Called(s, a), q)
  {
    hide InCallback, ReadyIsDistinct, LoopInRange, BatchesInRange;
    if a.WriteEventfd? { WriterExists(s, q); }
  }

  lemma EdgeAfterWatch(s: State, a: Action, q: nat)
    requires WellFormed(s) && Enabled(s, a) && IsWatch(a) && q < |s.queues| && EdgeIsNotLost(s, q)
    ensures EdgeIsNotLost(Watched(s, a), q)
  {
    hide InCallback, CallersInRange, BatchesInRange;
  }

  lemma CoverStep(s: State, a: Action, q: nat)
    requires WellFormed(s) && Enabled(s, a) && q < |s.queues| && QueueInv(s, q)
    ensures QueueIsCovered(Apply(s, a), q)
  {
    CallersAfter(s, a, q);
    hide TicketsOk, OrderOk, SomeoneMustCas, ReadyIsDistinct, HasUnfinished, Innermost, InCallback;
    if IsCall(a) {
      hide Watched, Drained;
      assert QueueIsCovered(Called(s, a), q);
    } else if IsWatch(a) {
      hide Called, Drained;
      assert QueueIsCovered(Watched(s, a), q);
    } else {
      CoverAfterDrain(s, a, q);
    }
  }

  lemma CoverAfterDrain(s: State, a: Action, q: nat)
    requires WellFormed(s) && Enabled(s, a) && !IsCall(a) && !IsWatch(a) && q < |s.queues| && QueueIsCovered(s, q)
    ensures QueueIsCovered(Drained(s, a), q)
  {
    hide Run, Take, HasUnfinished, Innermost, InCallback, ReadyIsDistinct, CallersInRange, LoopInRange;
    assert SomeoneMustCas(Drained(s, a), q) == SomeoneMustCas(s, q) by { hide Drained; }
    hide SomeoneMustCas;
  }

  lemma HistoryStep(s: State, a: Action, q: nat)
    requires WellFormed(s) && Enabled(s, a) && q < |s.queues| && QueueInv(s, q)
    ensures
      var s' := Apply(s, a);
      && s'.taken[q] <= |s'.pushed[q]| && s'.pushed[q][s'.taken[q]..] == s'.queues[q]
      && |s'.queues[q]| <= s.capacity
  {
    hide TicketsOk, OrderOk, OneTokenPerLamp, EdgeIsNotLost, AtMostOneWriter, QueueIsCovered;
    hide Run, InCallback, ReadyIsDistinct, CallersInRange, LoopInRange, BatchesInRange, HasUnfinished;
    match a
    case Push(_, p, f) =>
      if p == q { assert (s.pushed[q] + [f])[s.taken[q]..] == s.pushed[q][s.taken[q]..] + [f]; }
    case PopAll => TakenFromFront(s, s.loop.queue, |s.queues[s.loop.queue]|, q);
    case PopOne => TakenFromFront(s, s.loop.queue, 1, q);
    case NestedPopAll(p) => TakenFromFront(s, p, |s.queues[p]|, q);
    case NestedPopOne(p) => TakenFromFront(s, p, 1, q);
    case _ =>
  }

  lemma TakenFromFront(s: State, p: nat, count: nat, q: nat)
    requires Sized(s) && p < |s.queues| && count <= |s.queues[p]| && q < |s.queues|
    requires s.taken[q] <= |s.pushed[q]| && s.pushed[q][s.taken[q]..] == s.queues[q]
    ensures
      var s' := Take(s, p, count);
      s'.taken[q] <= |s'.pushed[q]| && s'.pushed[q][s'.taken[q]..] == s'.queues[q] && |s'.queues[q]| <= |s.queues[q]|
  {
    if p == q { assert s.pushed[q][s.taken[q] + count..] == s.pushed[q][s.taken[q]..][count..]; }
  }

  /** What an action does to the batches and the record of queue q. */
  predicate IsTicketStep(s: State, s': State, q: nat)
    requires Sized(s) && Sized(s') && q < |s.queues| == |s'.queues|
  {
    || (s'.batches == s.batches && s'.taken[q] == s.taken[q] && s'.ran[q] == s.ran[q]
        && s'.overtook[q] == s.overtook[q])
    || IsTake(s, s', q)
    || IsRun(s, s', q)
    || (s.batches != [] && Innermost(s).next >= Innermost(s).end && s'.batches == s.batches[..|s.batches| - 1]
        && s'.taken[q] == s.taken[q] && s'.ran[q] == s.ran[q] && s'.overtook[q] == s.overtook[q])
  }

  predicate IsTake(s: State, s': State, q: nat)
    requires Sized(s) && Sized(s') && q < |s.queues| == |s'.queues|
  {
    |s'.batches| == |s.batches| + 1 &&
    var b := s'.batches[|s.batches|];
    && s'.batches == s.batches + [b] && b.next <= b.end && s'.ran[q] == s.ran[q]
    && (if b.queue == q then b.next == s.taken[q] && s'.taken[q] == b.end
                             && s'.overtook[q] == (s.overtook[q] || (b.end > b.next && HasUnfinished(s.batches, q)))
        else s'.taken[q] == s.taken[q] && s'.overtook[q] == s.overtook[q])
  }

  predicate IsRun(s: State, s': State, q: nat)
    requires Sized(s) && Sized(s') && q < |s.queues| == |s'.queues|
  {
    s.batches != [] && Innermost(s).next < Innermost(s).end &&
    var b := Innermost(s);
    && s'.taken[q] == s.taken[q] && s'.overtook[q] == s.overtook[q]
    && s'.batches == s.batches[|s.batches| - 1 := b.(next := b.next + 1, running := true)]
    && s'.ran[q] == if b.queue == q then s.ran[q] + [b.next] else s.ran[q]
  }

  lemma ActionIsTicketStep(s: State, a: Action, q: nat)
    requires WellFormed(s) && Enabled(s, a) && q < |s.queues|
    ensures IsTicketStep(s, Apply(s, a), q)
  {
    var s' := Apply(s, a);
    match a
    case PopAll =>
      var p := s.loop.queue;
      assert s'.batches == s.batches + [Batch(p, s.taken[p], s.taken[p] + |s.queues[p]|, false)];
    case PopOne =>
      var p := s.loop.queue;
      assert s'.batches == s.batches + [Batch(p, s.taken[p], s.taken[p] + 1, false)];
    case NestedPopAll(p) =>
      assert s'.batches == s.batches + [Batch(p, s.taken[p], s.taken[p] + |s.queues[p]|, false)];
    case NestedPopOne(p) =>
      assert s'.batches == s.batches + [Batch(p, s.taken[p], s.taken[p] + 1, false)];
    case _ =>
  }

  lemma TakeKeepsTickets(batches: seq<Batch>, taken: nat, ran: seq<nat>, q: nat, b: Batch)
    requires TicketsOk(batches, taken, ran, q)
    requires b.queue == q ==> b.next == taken <= b.end
    ensures TicketsOk(batches + [b], if b.queue == q then b.end else taken, ran, q)
  {
    var more := batches + [b];
    var now := if b.queue == q then b.end else taken;
    forall t: nat | t < now && t !in ran ensures exists i :: 0 <= i < |more| && IsIn(more[i], q, t) {
      if t < taken {
        var i :| 0 <= i < |batches| && IsIn(batches[i], q, t);
        assert more[i] == batches[i];
      } else {
        assert IsIn(more[|batches|], q, t);
      }
    }
  }

  lemma RunKeepsTickets(batches: seq<Batch>, taken: nat, ran: seq<nat>, q: nat)
    requires batches != [] && TicketsOk(batches, taken, ran, q)
    requires batches[|batches| - 1].next < batches[|batches| - 1].end
    ensures
      var last := |batches| - 1;
      var b := batches[last];
      TicketsOk(batches[last := b.(next := b.next + 1, running := true)], taken,
                if b.queue == q then ran + [b.next] else ran, q)
  {
    var last := |batches| - 1;
    var b := batches[last];
    var less := batches[last := b.(next := b.next + 1, running := true)];
    var more := if b.queue == q then ran + [b.next] else ran;
    assert b.queue == q ==> IsIn(batches[last], q, b.next);
    assert b.queue == q ==> b.next !in ran;
    forall i, t | 0 <= i < |less| && IsIn(less[i], q, t) ensures IsIn(batches[i], q, t) && t !in more {
      assert IsIn(batches[i], q, t);
      assert t !in ran;
    }
    forall t: nat | t < taken && t !in more ensures exists i :: 0 <= i < |less| && IsIn(less[i], q, t) {
      assert t !in ran;
      var i :| 0 <= i < |batches| && IsIn(batches[i], q, t);
      assert IsIn(less[i], q, t) by { assert b.queue == q ==> t != b.next; }
    }
  }

  lemma EndKeepsTickets(batches: seq<Batch>, taken: nat, ran: seq<nat>, q: nat)
    requires batches != [] && TicketsOk(batches, taken, ran, q)
    requires batches[|batches| - 1].next >= batches[|batches| - 1].end
    ensures TicketsOk(batches[..|batches| - 1], taken, ran, q)
  {
    var less := batches[..|batches| - 1];
    forall t: nat | t < taken && t !in ran ensures exists i :: 0 <= i < |less| && IsIn(less[i], q, t) {
      var i :| 0 <= i < |batches| && IsIn(batches[i], q, t);
      assert IsIn(less[i], q, t);
    }
  }

  lemma TicketsStep(s: State, a: Action, q: nat)
    requires WellFormed(s) && Enabled(s, a) && q < |s.queues| && QueueInv(s, q)
    ensures
      var s' := Apply(s, a);
      TicketsOk(s'.batches, s'.taken[q], s'.ran[q], q)
  {
    hide TicketsOk, OrderOk, OneTokenPerLamp, EdgeIsNotLost, AtMostOneWriter, QueueIsCovered, Apply, Enabled;
    WellFormedStep(s, a);
    ActionIsTicketStep(s, a, q);
    var s' := Apply(s, a);
    if IsTake(s, s', q) {
      TakeKeepsTickets(s.batches, s.taken[q], s.ran[q], q, s'.batches[|s.batches|]);
    } else if IsRun(s, s', q) {
      RunKeepsTickets(s.batches, s.taken[q], s.ran[q], q);
    } else if s'.batches != s.batches {
      EndKeepsTickets(s.batches, s.taken[q], s.ran[q], q);
    }
  }

  lemma TakeKeepsOrder(batches: seq<Batch>, taken: nat, ran: seq<nat>, overtook: bool, q: nat, b: Batch)
    requires OrderOk(batches, taken, ran, overtook, q) && b.next <= b.end
    ensures OrderOk(batches + [b], if b.queue == q then b.end else taken, ran,
                    overtook || (b.queue == q && b.end > b.next && HasUnfinished(batches, q)), q)
  {
    var more := batches + [b];
    forall i, j | 0 <= i < j < |batches| && AreUnfinished(more, q, i, j) ensures AreUnfinished(batches, q, i, j) {}
    if WillOvertake(batches, q) {
      var i, j :| 0 <= i < j < |batches| && AreUnfinished(batches, q, i, j);
      assert AreUnfinished(more, q, i, j);
    }
    if b.queue == q && b.end > b.next && HasUnfinished(batches, q) {
      var i :| 0 <= i < |batches| && batches[i].queue == q && batches[i].next < batches[i].end;
      assert AreUnfinished(more, q, i, |batches|);
    }
  }

  lemma RunKeepsOrder(batches: seq<Batch>, taken: nat, ran: seq<nat>, overtook: bool, q: nat)
    requires batches != [] && TicketsOk(batches, taken, ran, q) && OrderOk(batches, taken, ran, overtook, q)
    requires batches[|batches| - 1].next < batches[|batches| - 1].end
    ensures
      var last := |batches| - 1;
      var b := batches[last];
      OrderOk(batches[last := b.(next := b.next + 1, running := true)], taken,
              if b.queue == q then ran + [b.next] else ran, overtook, q)
  {
    var last := |batches| - 1;
    var b := batches[last];
    var less := batches[last := b.(next := b.next + 1, running := true)];
    forall i, j | 0 <= i < j < |less| && AreUnfinished(less, q, i, j) ensures AreUnfinished(batches, q, i, j) {}
    if b.queue != q {
      forall i, j | 0 <= i < j < |less| && AreUnfinished(batches, q, i, j) ensures AreUnfinished(less, q, i, j) {}
    } else if IsInOrder(ran) {
      InnermostIsNext(batches, taken, ran, q);
      if WillOvertake(batches, q) {
        var i, j :| 0 <= i < j < |batches| && AreUnfinished(batches, q, i, j);
        if j < last {
          assert AreUnfinished(less, q, i, j);
        } else {
          assert (ran + [b.next])[|ran|] != |ran|;
        }
      }
    } else {
      var k :| 0 <= k < |ran| && ran[k] != k;
      assert (ran + [b.next])[k] != k;
    }
  }

  /** With the record in order, the innermost batch goes on with it unless an outer one is unfinished. */
  lemma InnermostIsNext(batches: seq<Batch>, taken: nat, ran: seq<nat>, q: nat)
    requires batches != [] && TicketsOk(batches, taken, ran, q) && IsInOrder(ran)
    requires batches[|batches| - 1].queue == q && batches[|batches| - 1].next < batches[|batches| - 1].end
    ensures !WillOvertake(batches, q) ==> batches[|batches| - 1].next == |ran|
    ensures forall i :: 0 <= i < |batches| - 1 && batches[i].queue == q && batches[i].next < batches[i].end ==>
      |ran| < batches[|batches| - 1].next
  {
    var last := |batches| - 1;
    var b := batches[last];
    NotRunYet(batches, taken, ran, q, last);
    if b.next > |ran| {
      assert |ran| !in ran;
      var i :| 0 <= i < |batches| && IsIn(batches[i], q, |ran|);
      assert AreUnfinished(batches, q, i, last);
    }
    forall i | 0 <= i < last && batches[i].queue == q && batches[i].next < batches[i].end ensures |ran| < b.next {
      NotRunYet(batches, taken, ran, q, i);
      assert IsIn(batches[i], q, batches[i].next);
    }
  }

  lemma NotRunYet(batches: seq<Batch>, taken: nat, ran: seq<nat>, q: nat, i: nat)
    requires TicketsOk(batches, taken, ran, q) && IsInOrder(ran)
    requires i < |batches| && batches[i].queue == q && batches[i].next < batches[i].end
    ensures batches[i].next >= |ran|
  {
    var t := batches[i].next;
    assert IsIn(batches[i], q, t);
    assert t !in ran;
    forall k: nat | k < |ran| ensures k in ran { assert ran[k] == k; }
  }

  lemma EndKeepsOrder(batches: seq<Batch>, taken: nat, ran: seq<nat>, overtook: bool, q: nat)
    requires batches != [] && OrderOk(batches, taken, ran, overtook, q)
    requires batches[|batches| - 1].next >= batches[|batches| - 1].end
    ensures OrderOk(batches[..|batches| - 1], taken, ran, overtook, q)
  {
    var less := batches[..|batches| - 1];
    forall i, j | 0 <= i < j < |less| && AreUnfinished(less, q, i, j) ensures AreUnfinished(batches, q, i, j) {}
    if WillOvertake(batches, q) {
      var i, j :| 0 <= i < j < |batches| && AreUnfinished(batches, q, i, j);
      assert AreUnfinished(less, q, i, j);
    }
  }

  lemma OrderStep(s: State, a: Action, q: nat)
    requires WellFormed(s) && Enabled(s, a) && q < |s.queues| && QueueInv(s, q)
    ensures
      var s' := Apply(s, a);
      OrderOk(s'.batches, s'.taken[q], s'.ran[q], s'.overtook[q], q)
  {
    hide TicketsOk, OrderOk, OneTokenPerLamp, EdgeIsNotLost, AtMostOneWriter, QueueIsCovered, Apply, Enabled;
    WellFormedStep(s, a);
    ActionIsTicketStep(s, a, q);
    var s' := Apply(s, a);
    if IsTake(s, s', q) {
      TakeKeepsOrder(s.batches, s.taken[q], s.ran[q], s.overtook[q], q, s'.batches[|s.batches|]);
    } else if IsRun(s, s', q) {
      RunKeepsOrder(s.batches, s.taken[q], s.ran[q], s.overtook[q], q);
    } else if s'.batches != s.batches {
      EndKeepsOrder(s.batches, s.taken[q], s.ran[q], s.overtook[q], q);
    }
  }

  lemma BatchesStep(s: State, a: Action)
    requires WellFormed(s) && Enabled(s, a)
    ensures BatchesInRange(Apply(s, a))
  {
    hide CallersInRange, ReadyIsDistinct;
  }

  lemma WellFormedStep(s: State, a: Action)
    requires WellFormed(s) && Enabled(s, a)
    ensures WellFormed(Apply(s, a))
  {
    BatchesStep(s, a);
    hide BatchesInRange, Take, Run, Innermost, InCallback, HasUnfinished, Called, Watched, Drained;
    if IsCall(a) {
      CalledInRange(s, a);
    } else if IsWatch(a) {
      WatchedInRange(s, a);
    } else {
      assert LoopInRange(Drained(s, a)) && CallersInRange(Drained(s, a));
    }
  }

  lemma CalledInRange(s: State, a: Action)
    requires WellFormed(s) && Enabled(s, a) && IsCall(a)
    ensures CallersInRange(Called(s, a)) && LoopInRange(Called(s, a))
  {
    hide BatchesInRange, ReadyIsDistinct;
  }

  lemma WatchedInRange(s: State, a: Action)
    requires WellFormed(s) && Enabled(s, a) && IsWatch(a)
    ensures LoopInRange(Watched(s, a)) && ReadyIsDistinct(Watched(s, a).loop) && CallersInRange(Watched(s, a))
  {
    hide BatchesInRange;
  }

  lemma StopStep(s: State, a: Action)
    requires WellFormed(s) && Enabled(s, a) && QueueInv(s, 0) && StopIsCovered(s)
    ensures Sized(Apply(s, a)) && StopIsCovered(Apply(s, a))
  {
    hide Drained, Innermost, InCallback, HasUnfinished, TicketsOk, OrderOk;
    CallersAfter(s, a, 0);
  }

  lemma InvStep(s: State, a: Action)
    requires Inv(s) && Enabled(s, a)
    ensures Inv(Apply(s, a))
  {
    WellFormedStep(s, a);
    assert QueueInv(s, 0);
    StopStep(s, a);
    hide Apply, StopIsCovered;
    forall q: nat | q < |s.queues| ensures QueueInv(Apply(s, a), q) {
      assert QueueInv(s, q);
      WriterStep(s, a, q);
      TokenStep(s, a, q);
      EdgeStep(s, a, q);
      CoverStep(s, a, q);
      HistoryStep(s, a, q);
      TicketsStep(s, a, q);
      OrderStep(s, a, q);
    }
  }

  // --------------------------------------------------------------- whole runs

  lemma {:induction false} RunInv(s: State, actions: seq<Action>, s': State)
    requires Inv(s) && Runs(s, actions, s')
    ensures Inv(s')
    decreases |actions|
  {
    if actions != [] {
      InvStep(s, actions[0]);
      RunInv(Apply(s, actions[0]), actions[1..], s');
    }
  }

  lemma ReachableInv(s: State)
    requires Reachable(s)
    ensures Inv(s)
  {
    var queues: nat, callers: nat, actions :| queues >= 1 && Runs(Initial(s.capacity, queues, callers), actions, s);
    InvInitial(s.capacity, queues, callers);
    RunInv(Initial(s.capacity, queues, callers), actions, s);
  }

  /** There is something the loop must wake up for through eventfd q. */
  predicate NeedsWakeup(s: State, q: nat)
    requires Sized(s) && q < |s.queues|
  {
    s.queues[q] != [] || (q == 0 && s.needStop && s.loop == Polling(false))
  }

  /**
   No lost wake-up: when the loop is about to block although a queue is
   non-empty, or a stop was requested after its last check, then that
   eventfd is readable and will be reported, or a caller has its write still to
   perform, or the lamp is dark and a caller is about to light it.
   */
  lemma NoLostWakeup(s: State, q: nat)
    requires Reachable(s) && s.loop.Polling? && Sized(s) && q < |s.queues| && NeedsWakeup(s, q)
    ensures (s.counters[q] == 1 && s.edges[q]) || SomeoneMustWrite(s, q) || (SomeoneMustCas(s, q) && !s.lamps[q])
  {
    ReachableInv(s);
    assert QueueInv(s, q);
  }

  /** So once callers have finished their calls, epoll_wait returns and reports that eventfd. */
  lemma FinishedCallsWakeTheLoop(s: State, q: nat)
    requires Reachable(s) && s.loop.Polling? && Sized(s) && q < |s.queues| && NeedsWakeup(s, q)
    requires forall c :: 0 <= c < |s.callers| ==> s.callers[c].Idle?
    ensures Enabled(s, Poll([q], false))
  {
    NoLostWakeup(s, q);
  }

  /** A loop that stays blocked with no caller inside a call has nothing to do and no stop to notice. */
  lemma BlockedMeansDrained(s: State)
    requires Reachable(s) && s.loop.Polling? && Sized(s)
    requires forall c :: 0 <= c < |s.callers| ==> s.callers[c].Idle?
    requires forall q :: 0 <= q < |s.queues| ==> !(s.edges[q] && s.counters[q] > 0)
    ensures forall q :: 0 <= q < |s.queues| ==> s.queues[q] == [] && |s.ran[q]| == |s.pushed[q]|
    ensures forall q, t :: 0 <= q < |s.queues| && 0 <= t < |s.pushed[q]| ==> t in s.ran[q]
    ensures s.needStop ==> s.loop.sawStop
  {
    ReachableInv(s);
    forall q: nat | q < |s.queues|
      ensures !NeedsWakeup(s, q) && s.queues[q] == []
      ensures |s.ran[q]| == |s.pushed[q]|
      ensures forall t :: 0 <= t < |s.pushed[q]| ==> t in s.ran[q]
    {
      assert QueueInv(s, q);
      if NeedsWakeup(s, q) { NoLostWakeup(s, q); }
      EachFunctorRunsOnce(s, q);
      assert |s.pushed[q][s.taken[q]..]| == 0 && s.taken[q] == |s.pushed[q]|;
    }
    assert !NeedsWakeup(s, 0);
  }

  /** The lamps really suppress writes: a count never exceeds one, and no read finds zero. */
  lemma EveryWriteIsReadOnce(s: State, a: Action)
    requires Reachable(s) && Sized(s) && Enabled(s, a)
    ensures forall q :: 0 <= q < |s.queues| ==> s.counters[q] <= 1
    ensures forall q :: 0 <= q < |s.queues| && a.WriteEventfd? && s.callers[a.caller] == MustWrite(q) ==>
      s.counters[q] == 0
    ensures forall q :: 0 <= q < |s.queues| && a.ReadEventfd? && s.loop.ready[0] == q ==> s.counters[q] == 1
  {
    ReachableInv(s);
    forall q: nat | q < |s.queues|
      ensures s.counters[q] <= 1
      ensures a.WriteEventfd? && s.callers[a.caller] == MustWrite(q) ==> s.counters[q] == 0
      ensures a.ReadEventfd? && s.loop.ready[0] == q ==> s.counters[q] == 1
    {
      assert QueueInv(s, q);
      assert a.ReadEventfd? && s.loop.ready[0] == q ==> IsReported(s.loop, q);
    }
  }

  /** Every functor taken out of a queue is run once, unless its batch still has it; no queue outgrows its capacity. */
  lemma EachFunctorRunsOnce(s: State, q: nat)
    requires Reachable(s) && Sized(s) && q < |s.queues|
    ensures s.taken[q] <= |s.pushed[q]| && s.pushed[q][s.taken[q]..] == s.queues[q] && |s.queues[q]| <= s.capacity
    ensures TicketsOk(s.batches, s.taken[q], s.ran[q], q)
    ensures s.batches == [] ==> |s.ran[q]| == s.taken[q] && forall t: nat :: t < s.taken[q] ==> t in s.ran[q]
  {
    ReachableInv(s);
    assert QueueInv(s, q);
    if s.batches == [] { CountDistinct(s.ran[q], s.taken[q]); }
  }

  lemma EmptyHasNoElements(ran: seq<nat>)
    ensures ran == [] <==> forall t: nat :: t !in ran
  {
    if ran != [] { assert ran[0] in ran; }
  }

  lemma {:induction false} CountDistinct(ran: seq<nat>, n: nat)
    requires forall i, j :: 0 <= i < j < |ran| ==> ran[i] != ran[j]
    requires forall t: nat :: t in ran <==> t < n
    ensures |ran| == n
  {
    EmptyHasNoElements(ran);
    if n > 0 {
      var greatest: nat := n - 1;
      assert greatest in ran;
      var k :| 0 <= k < |ran| && ran[k] == greatest;
      var less := ran[..k] + ran[k + 1..];
      forall t: nat ensures t in less <==> t < n - 1 {
        if t in ran {
          var i :| 0 <= i < |ran| && ran[i] == t;
          assert i < k ==> less[i] == t;
          assert i > k ==> less[i - 1] == t;
        }
        assert t in less ==> t in ran;
      }
      CountDistinct(less, n - 1);
    }
  }

  /**
   Functors run in the order their queue received them if and only if no drain
   from within a callback ever took functors of a queue while a batch of that
   queue was still unfinished.
   */
  lemma FunctorsRunInOrder(s: State, q: nat)
    requires Reachable(s) && Sized(s) && q < |s.queues|
    ensures !s.overtook[q] ==> IsInOrder(s.ran[q])
    ensures s.batches == [] ==> (IsInOrder(s.ran[q]) <==> !s.overtook[q])
  {
    ReachableInv(s);
    assert QueueInv(s, q);
  }

  // ---------------------------------------------------------- what was asked for

  /** The functors that callers pushed to queue q, in order. */
  function PushedBy(actions: seq<Action>, q: nat): seq<Functor>
    decreases |actions|
  {
    if actions == [] then []
    else (if actions[0].Push? && actions[0].queue == q then [actions[0].functor] else []) + PushedBy(actions[1..], q)
  }

  predicate AsksToStop(actions: seq<Action>) {
    exists k :: 0 <= k < |actions| && actions[k].AskToStop?
  }

  lemma AskedStep(s: State, a: Action, q: nat)
    requires CanAct(s, a) && q < |s.queues|
    ensures
      var s' := Apply(s, a);
      && s'.pushed[q] == s.pushed[q] + (if a.Push? && a.queue == q then [a.functor] else [])
      && (s'.needStop <==> s.needStop || a.AskToStop?)
  {
    hide Take, Run, CallersInRange, LoopInRange, BatchesInRange;
  }

  lemma PushedFirst(before: seq<Functor>, actions: seq<Action>, q: nat)
    requires actions != []
    ensures before + PushedBy(actions, q) ==
      (before + if actions[0].Push? && actions[0].queue == q then [actions[0].functor] else [])
      + PushedBy(actions[1..], q)
  {
    var first := if actions[0].Push? && actions[0].queue == q then [actions[0].functor] else [];
    var later := PushedBy(actions[1..], q);
    assert PushedBy(actions, q) == first + later;
    Regroup(before, first, later);
  }

  lemma {:induction false} AskedRun(s: State, actions: seq<Action>, s': State, q: nat)
    requires Runs(s, actions, s') && Sized(s) && q < |s.queues|
    ensures Sized(s') && |s'.queues| == |s.queues| && s'.pushed[q] == s.pushed[q] + PushedBy(actions, q)
    ensures s'.needStop <==> s.needStop || AsksToStop(actions)
    decreases |actions|
  {
    hide Apply, Enabled, PushedBy;
    if actions == [] {
      assert s.pushed[q] + PushedBy([], q) == s.pushed[q] by { NothingPushed(s.pushed[q], q); }
    } else {
      AskedStep(s, actions[0], q);
      AskedRun(Apply(s, actions[0]), actions[1..], s', q);
      PushedFirst(s.pushed[q], actions, q);
      if AsksToStop(actions[1..]) {
        var k :| 0 <= k < |actions[1..]| && actions[1..][k].AskToStop?;
        assert actions[k + 1].AskToStop?;
      }
      if AsksToStop(actions) && !actions[0].AskToStop? {
        var k :| 0 <= k < |actions| && actions[k].AskToStop?;
        assert actions[1..][k - 1].AskToStop?;
      }
    }
  }

  lemma NothingPushed(before: seq<Functor>, q: nat)
    ensures before + PushedBy([], q) == before
  {
  }

  /**
   Over any run a queue's history is what callers pushed to it, and a stop is wanted if
   and only if one was asked for.
   */
  lemma HistoryIsWhatWasAsked(capacity: nat, queues: nat, callers: nat, actions: seq<Action>, s: State, q: nat)
    requires Runs(Initial(capacity, queues, callers), actions, s) && q < queues
    ensures Sized(s) && q < |s.queues| && s.pushed[q] == PushedBy(actions, q)
    ensures s.needStop <==> AsksToStop(actions)
  {
    hide Runs, PushedBy, AsksToStop;
    var start := Initial(capacity, queues, callers);
    assert start.pushed[q] == [] && !start.needStop;
    AskedRun(start, actions, s, q);
    assert [] + PushedBy(actions, q) == PushedBy(actions, q);
  }

  // ------------------------------------------------------------------- stopping

  predicate IsLeaving(pc: LoopPc) {
    pc.FinalDrain? || pc.Exited?
  }

  /** The loop leaves only if a stop was asked for, and knows of one only if there is. */
  predicate LeavesOnRequest(s: State) {
    IsLeaving(s.loop) || s.loop == Polling(true) ==> s.needStop
  }

  lemma LeavingStep(s: State, a: Action)
    requires CanAct(s, a)
    ensures LeavesOnRequest(s) ==> LeavesOnRequest(Apply(s, a))
    ensures IsLeaving(s.loop) ==> IsLeaving(Apply(s, a).loop)
  {
    hide Take, Run, CallersInRange, LoopInRange, BatchesInRange;
  }

  lemma {:induction false} LeavingRun(s: State, actions: seq<Action>, s': State)
    requires Runs(s, actions, s')
    ensures LeavesOnRequest(s) ==> LeavesOnRequest(s')
    ensures IsLeaving(s.loop) ==> IsLeaving(s'.loop)
    decreases |actions|
  {
    hide Apply, CanAct, LeavesOnRequest, IsLeaving;
    if actions != [] {
      LeavingStep(s, actions[0]);
      LeavingRun(Apply(s, actions[0]), actions[1..], s');
    }
  }

  /** A loop on its way out, or out, was asked to stop. */
  lemma LeavesOnlyWhenAsked(capacity: nat, queues: nat, callers: nat, actions: seq<Action>, s: State)
    requires queues >= 1 && Runs(Initial(capacity, queues, callers), actions, s) && IsLeaving(s.loop)
    ensures AsksToStop(actions)
  {
    LeavingRun(Initial(capacity, queues, callers), actions, s);
    HistoryIsWhatWasAsked(capacity, queues, callers, actions, s, 0);
  }

  /** A check that finds a stop wanted and the poller empty is the last: the loop never polls again. */
  lemma StopIsFinal(s: State, pollerIsEmpty: bool, actions: seq<Action>, s': State)
    requires CanAct(s, CheckStop(pollerIsEmpty)) && Runs(Apply(s, CheckStop(pollerIsEmpty)), actions, s')
    ensures s.needStop && pollerIsEmpty ==> IsLeaving(s'.loop)
    ensures !(s.needStop && pollerIsEmpty) ==> Apply(s, CheckStop(pollerIsEmpty)).loop == Polling(s.needStop)
  {
    LeavingRun(Apply(s, CheckStop(pollerIsEmpty)), actions, s');
  }

  /** The drain the loop is in has yet to come to queue q. */
  predicate IsBefore(pc: LoopPc, q: nat) {
    IsInDrain(pc) && pc.queue <= q
  }

  lemma DrainStep(s: State, a: Action, q: nat, n: nat)
    requires Inv(s) && CanAct(s, a) && q < |s.queues| && n <= |s.pushed[q]|
    requires IsBefore(s.loop, q) || s.taken[q] >= n
    ensures
      var s' := Apply(s, a);
      q < |s'.queues| && n <= |s'.pushed[q]| && (IsBefore(s'.loop, q) || s'.taken[q] >= n)
  {
    assert |s.queues[q]| == |s.pushed[q]| - s.taken[q] by { assert QueueInv(s, q); }
    hide Inv, Called, Watched, Drained, IsBefore, CanAct;
    if IsCall(a) {
      assert |s.pushed[q]| <= |Called(s, a).pushed[q]| by { AskedStep(s, a, q); }
    } else if !IsWatch(a) {
      DrainedStep(s, a, q, n);
    } else {
      assert IsBefore(s.loop, q) ==> false by { WatchIsNoDrain(s, a, q); }
    }
  }

  lemma WatchIsNoDrain(s: State, a: Action, q: nat)
    requires CanAct(s, a) && IsWatch(a)
    ensures !IsBefore(s.loop, q)
  {
  }

  lemma DrainedStep(s: State, a: Action, q: nat, n: nat)
    requires CanAct(s, a) && !IsCall(a) && !IsWatch(a) && q < |s.queues| && n <= |s.pushed[q]|
    requires |s.queues[q]| == |s.pushed[q]| - s.taken[q] && (IsBefore(s.loop, q) || s.taken[q] >= n)
    ensures
      var s' := Drained(s, a);
      q < |s'.queues| && s'.pushed == s.pushed && (IsBefore(s'.loop, q) || s'.taken[q] >= n)
  {
    hide Run, InCallback, Innermost, HasUnfinished, CallersInRange, LoopInRange, BatchesInRange;
  }

  lemma {:induction false} DrainRun(s: State, actions: seq<Action>, s': State, q: nat, n: nat)
    requires Inv(s) && Runs(s, actions, s') && q < |s.queues| && n <= |s.pushed[q]|
    requires IsBefore(s.loop, q) || s.taken[q] >= n
    ensures q < |s'.queues| && Sized(s') && (IsBefore(s'.loop, q) || s'.taken[q] >= n)
    decreases |actions|
  {
    hide Apply, Enabled, IsBefore, QueueInv, StopIsCovered;
    if actions != [] {
      DrainStep(s, actions[0], q, n);
      InvStep(s, actions[0]);
      DrainRun(Apply(s, actions[0]), actions[1..], s', q, n);
    }
  }

  /**
   A drain, the last one on the way out included, runs everything that was pushed to a
   queue before it came to that queue, once each: it has when it is past the queue and no
   batch is open.
   */
  lemma DrainRunsWhatWasThere(s: State, actions: seq<Action>, s': State, q: nat)
    requires Reachable(s) && Runs(s, actions, s') && Sized(s) && q < |s.queues| && IsBefore(s.loop, q)
    ensures Sized(s') && q < |s'.queues|
    ensures s'.batches == [] && !IsBefore(s'.loop, q) ==> forall t: nat :: t < |s.pushed[q]| ==> t in s'.ran[q]
    ensures forall i, j :: 0 <= i < j < |s'.ran[q]| ==> s'.ran[q][i] != s'.ran[q][j]
    ensures s'.loop.Exited? ==> s'.batches == []
  {
    ReachableInv(s);
    RunInv(s, actions, s');
    DrainRun(s, actions, s', q, |s.pushed[q]|);
    assert QueueInv(s', q);
    hide Runs, Inv, StopIsCovered, Apply;
  }

  // ------------------------------------------------------------------- progress

  /** What the loop does by itself between two checks. */
  predicate IsOwn(a: Action) {
    !IsCall(a) && !a.CheckStop? && !a.Poll? && !a.NestedPopAll? && !a.NestedPopOne?
  }

  /** How far the turn is from its end. */
  function Stage(s: State): nat {
    var k := |s.queues|;
    match s.loop
    case Dispatching(ready) => k + 2 + 2 * |ready|
    case Clearing(_, ready) => k + 3 + 2 * |ready|
    case Draining(q) => if q < k then 1 + k - q else 1
    case FinalDrain(q) => if q < k then 1 + k - q else 1
    case _ => 0
  }

  function Waiting(s: State): nat {
    if IsInDrain(s.loop) && s.loop.queue < |s.queues| then |s.queues[s.loop.queue]| else 0
  }

  function Open(batches: seq<Batch>): nat {
    if batches == [] then 0
    else
      var b := batches[|batches| - 1];
      Open(batches[..|batches| - 1]) + 1 + if b.next < b.end then b.end - b.next else 0
  }

  lemma RunShrinks(batches: seq<Batch>)
    requires batches != [] && batches[|batches| - 1].next < batches[|batches| - 1].end
    ensures
      var b := batches[|batches| - 1];
      Open(batches[|batches| - 1 := b.(next := b.next + 1, running := true)]) < Open(batches)
  {
    var b := batches[|batches| - 1];
    var less := batches[|batches| - 1 := b.(next := b.next + 1, running := true)];
    assert less[..|less| - 1] == batches[..|batches| - 1];
  }

  /** Each thing the loop does by itself brings the turn nearer to its end. */
  lemma OwnStepShrinks(s: State, a: Action)
    requires WellFormed(s) && Enabled(s, a) && IsOwn(a)
    ensures
      var s' := Apply(s, a);
      || Stage(s') < Stage(s)
      || (Stage(s') == Stage(s) && Waiting(s') < Waiting(s))
      || (Stage(s') == Stage(s) && Waiting(s') == Waiting(s) && Open(s'.batches) < Open(s.batches))
  {
    hide Open, CallersInRange, ReadyIsDistinct, HasUnfinished;
    if a.RunNext? { RunShrinks(s.batches); }
    if a.EndBatch? { EndShrinks(s.batches); }
  }

  lemma EndShrinks(batches: seq<Batch>)
    requires batches != []
    ensures Open(batches[..|batches| - 1]) < Open(batches)
  {
  }

  /** Between a turn and the next no eventfd counts as triggered. */
  predicate IsUntriggered(s: State) {
    s.loop.Checking? || s.loop.Polling? ==> !s.triggered
  }

  lemma {:induction false} UntriggeredRun(s: State, actions: seq<Action>, s': State)
    requires Runs(s, actions, s') && IsUntriggered(s)
    ensures IsUntriggered(s')
    decreases |actions|
  {
    hide Apply, CanAct, IsUntriggered;
    if actions != [] {
      UntriggeredStep(s, actions[0]);
      UntriggeredRun(Apply(s, actions[0]), actions[1..], s');
    }
  }

  lemma UntriggeredStep(s: State, a: Action)
    requires CanAct(s, a) && IsUntriggered(s)
    ensures IsUntriggered(Apply(s, a))
  {
    hide Take, Run, CallersInRange, LoopInRange, BatchesInRange;
  }

  /**
   At the end of a turn the queues are drained if and only if an eventfd was reported in
   it, whatever callbacks did.
   */
  lemma DrainsWhenReported(s: State, reported: seq<nat>, actions: seq<Action>, s': State)
    requires Reachable(s) && CanAct(s, Poll(reported, true)) && Runs(Apply(s, Poll(reported, true)), actions, s')
    requires CanAct(s', EndDispatch) && forall k :: 0 <= k < |actions| ==> !actions[k].EndDispatch?
    ensures Apply(s', EndDispatch).loop == if reported != [] then Draining(0) else Checking
  {
    var queues: nat, callers: nat, before :| queues >= 1 && Runs(Initial(s.capacity, queues, callers), before, s);
    UntriggeredRun(Initial(s.capacity, queues, callers), before, s);
    DispatchRun(Apply(s, Poll(reported, true)), actions, s', reported);
  }

  /** The turn's eventfds are read one after the other, and triggered tells whether one has been. */
  predicate IsDispatched(s: State, reported: seq<nat>) {
    match s.loop
    case Dispatching(ready) => |ready| <= |reported| && (s.triggered <==> |ready| < |reported|)
    case Clearing(_, ready) => |ready| < |reported|
    case _ => false
  }

  lemma DispatchStep(s: State, a: Action, reported: seq<nat>)
    requires CanAct(s, a) && IsDispatched(s, reported) && !a.EndDispatch?
    ensures IsDispatched(Apply(s, a), reported)
  {
    hide Take, Run, CallersInRange, LoopInRange, BatchesInRange;
  }

  lemma {:induction false} DispatchRun(s: State, actions: seq<Action>, s': State, reported: seq<nat>)
    requires Runs(s, actions, s') && IsDispatched(s, reported)
    requires forall k :: 0 <= k < |actions| ==> !actions[k].EndDispatch?
    ensures IsDispatched(s', reported)
    decreases |actions|
  {
    hide Apply, CanAct, IsDispatched;
    if actions != [] {
      DispatchStep(s, actions[0], reported);
      DispatchRun(Apply(s, actions[0]), actions[1..], s', reported);
    }
  }

  /** The next thing the loop does by itself. */
  function OwnAction(s: State): Action
    requires Sized(s)
  {
    if s.batches != [] then (if Innermost(s).next < Innermost(s).end then RunNext else EndBatch)
    else
      match s.loop
      case Dispatching(ready) => if ready == [] then EndDispatch else ReadEventfd
      case Clearing(_, _) => ClearLamp
      case Draining(q) => DrainAction(s.queues, q)
      case _ => if s.loop.FinalDrain? then DrainAction(s.queues, s.loop.queue) else EndDrain
  }

  function DrainAction(queues: seq<seq<Functor>>, q: nat): Action {
    if q >= |queues| then EndDrain else if queues[q] == [] then SeeEmpty else PopOne
  }

  /** There is no other, but that the queue may be one that gives out everything at once. */
  lemma OwnIsForced(s: State, a: Action)
    requires WellFormed(s) && Enabled(s, a) && IsOwn(a)
    ensures a == OwnAction(s) || (a.PopAll? && s.batches == [] && IsInDrain(s.loop) && s.loop.queue < |s.queues|)
  {
    hide CallersInRange, LoopInRange, BatchesInRange, ReadyIsDistinct;
  }

  /**
   The loop is never stuck in a turn: left alone it runs what it has taken and gets
   back to its check, or out.
   */
  lemma {:induction false} TurnEnds(s: State) returns (actions: seq<Action>, s': State)
    requires Inv(s) && !s.loop.Polling?
    ensures Runs(s, actions, s') && forall k :: 0 <= k < |actions| ==> IsOwn(actions[k])
    ensures s'.batches == [] && (s'.loop.Checking? || s'.loop.Exited?)
    decreases Stage(s), Waiting(s), Open(s.batches)
  {
    if s.batches == [] && (s.loop.Checking? || s.loop.Exited?) {
      actions, s' := [], s;
    } else {
      var a := OwnAction(s);
      assert Enabled(s, a) && IsOwn(a);
      hide Enabled, OwnAction;
      OwnStepShrinks(s, a);
      InvStep(s, a);
      assert !Apply(s, a).loop.Polling? by { OwnDoesNotPoll(s, a); }
      hide Apply, Inv, Stage, Waiting, Open;
      var later;
      later, s' := TurnEnds(Apply(s, a));
      actions := [a] + later;
      assert actions[1..] == later;
    }
  }

  /** A loop at its check with an empty poller that is asked to stop does get out. */
  lemma StoppedLoopExits(s: State, c: nat) returns (actions: seq<Action>, s': State)
    requires Inv(s) && s.loop.Checking? && s.batches == [] && c < |s.callers| && s.callers[c].Idle?
    ensures Runs(s, actions, s') && s'.loop.Exited?
    ensures |actions| >= 2 && actions[0] == AskToStop(c) && actions[1] == CheckStop(true)
  {
    hide QueueInv, StopIsCovered;
    var s1 := Apply(s, AskToStop(c));
    InvStep(s, AskToStop(c));
    var s2 := Apply(s1, CheckStop(true));
    InvStep(s1, CheckStop(true));
    assert s2.loop == FinalDrain(0);
    var own, end := TurnEnds(s2);
    LeavingRun(s2, own, end);
    actions, s' := [AskToStop(c), CheckStop(true)] + own, end;
    assert actions[1..] == [CheckStop(true)] + own && actions[1..][1..] == own;
    assert Runs(s1, actions[1..], s');
  }

  lemma OwnDoesNotPoll(s: State, a: Action)
    requires CanAct(s, a) && IsOwn(a) && !s.loop.Polling?
    ensures !Apply(s, a).loop.Polling?
  {
    hide Take, Run;
  }

  /**
   No call blocks but on a full queue: its thread tries the lamp, writes the eventfd if
   it has lit it, and returns.
   */
  lemma CallEnds(s: State, c: nat) returns (actions: seq<Action>, s': State)
    requires Inv(s) && c < |s.callers|
    ensures Runs(s, actions, s') && c < |s'.callers| && s'.callers[c].Idle?
    ensures |actions| <= 2
    ensures forall k :: 0 <= k < |actions| ==> actions[k] == CasLamp(c) || actions[k] == WriteEventfd(c)
    ensures !s.callers[c].Idle? ==> Sized(s') && s.callers[c].queue < |s'.queues| && s'.lamps[s.callers[c].queue]
  {
    var q := if s.callers[c].Idle? then 0 else s.callers[c].queue;
    match s.callers[c]
    case Idle => actions, s' := [], s;
    case MustWrite(_) =>
      assert QueueInv(s, q) && s.callers[c] == MustWrite(q);
      actions, s' := [WriteEventfd(c)], Apply(s, WriteEventfd(c));
    case MustCas(_) =>
      var s1 := Apply(s, CasLamp(c));
      if s.lamps[q] {
        actions, s' := [CasLamp(c)], s1;
      } else {
        InvStep(s, CasLamp(c));
        s' := Apply(s1, WriteEventfd(c));
        actions := [CasLamp(c), WriteEventfd(c)];
        assert actions[1..] == [WriteEventfd(c)] && actions[1..][1..] == [];
        assert Runs(s1, actions[1..], s');
      }
  }

  lemma {:induction false} ExtendRun(s: State, actions: seq<Action>, s': State, a: Action)
    requires Runs(s, actions, s') && CanAct(s', a)
    ensures Runs(s, actions + [a], Apply(s', a))
    decreases |actions|
  {
    hide Apply, CanAct;
    if actions == [] {
      assert (actions + [a])[1..] == [];
    } else {
      ExtendRun(Apply(s, actions[0]), actions[1..], s', a);
      assert (actions + [a])[1..] == actions[1..] + [a];
    }
  }

  predicate IsSame(u: State, t: State) {
    && u.capacity == t.capacity && u.queues == t.queues && u.counters == t.counters && u.edges == t.edges
    && u.lamps == t.lamps && u.needStop == t.needStop && u.triggered == t.triggered && u.loop == t.loop
    && u.callers == t.callers && u.pushed == t.pushed && u.taken == t.taken && u.batches == t.batches
    && u.ran == t.ran && u.overtook == t.overtook
  }

  /** A step to a state given field by field. */
  lemma Goes(s: State, a: Action, t: State)
    requires Reachable(s) && CanAct(s, a) && IsSame(Apply(s, a), t)
    ensures Reachable(t)
  {
    hide Apply, CanAct;
    var queues: nat, callers: nat, actions :| queues >= 1 && Runs(Initial(s.capacity, queues, callers), actions, s);
    ExtendRun(Initial(s.capacity, queues, callers), actions, s, a);
    assert t == Apply(s, a);
  }

  /** One queue and one caller outside `run`; the loop is on its way through a turn. */
  function Turn(queue: seq<Functor>, unread: bool, edge: bool, lamp: bool, triggered: bool, loop: LoopPc): State {
    State(3, [queue], [if unread then 1 else 0], [edge], [lamp], false, triggered, loop, [Idle], [queue], [0], [], [[]],
          [false])
  }

  lemma OnePushed()
    ensures Reachable(Turn([1], true, true, true, false, Checking))
  {
    hide Reachable, Watched, Drained;
    var s := Turn([], false, false, false, false, Checking);
    assert Reachable(s) by { StartIsReachable(s); }
    assert s.queues[0] + [1] == [1];
    var s1 := s.(queues := [[1]], pushed := [[1]], callers := [MustCas(0)]);
    Goes(s, Push(0, 0, 1), s1);
    var s2 := s1.(lamps := [true], callers := [MustWrite(0)]);
    Goes(s1, CasLamp(0), s2);
    Goes(s2, WriteEventfd(0), Turn([1], true, true, true, false, Checking));
  }

  lemma TwoPushed()
    ensures Reachable(Turn([1, 2], true, true, true, false, Checking))
  {
    hide Reachable, Watched, Drained;
    OnePushed();
    var s3 := Turn([1], true, true, true, false, Checking);
    assert [1] + [2] == [1, 2];
    var s4 := s3.(queues := [[1, 2]], pushed := [[1, 2]], callers := [MustCas(0)]);
    Goes(s3, Push(0, 0, 2), s4);
    Goes(s4, CasLamp(0), Turn([1, 2], true, true, true, false, Checking));
  }

  lemma StartIsReachable(s: State)
    requires s == Turn([], false, false, false, false, Checking)
    ensures Reachable(s)
  {
    var t := Initial(3, 1, 1);
    assert s.queues == t.queues && s.counters == t.counters && s.edges == t.edges && s.lamps == t.lamps;
    assert s.callers == t.callers && s.pushed == t.pushed && s.taken == t.taken;
    assert s.ran == t.ran && s.overtook == t.overtook;
    assert 1 >= 1 && Runs(Initial(s.capacity, 1, 1), [], s);
  }

  lemma Reported()
    ensures Reachable(Turn([1, 2], true, false, true, false, Dispatching([0])))
  {
    hide Reachable, Called, Drained;
    TwoPushed();
    var s := Turn([1, 2], true, true, true, false, Checking);
    var s1 := s.(loop := Polling(false));
    Goes(s, CheckStop(false), s1);
    Goes(s1, Poll([0], false), Turn([1, 2], true, false, true, false, Dispatching([0])));
  }

  lemma EventfdIsRead()
    ensures Reachable(Turn([1, 2], false, false, true, false, Clearing(0, [])))
  {
    hide Reachable, Called, Drained;
    Reported();
    var s := Turn([1, 2], true, false, true, false, Dispatching([0]));
    Goes(s, ReadEventfd, Turn([1, 2], false, false, true, false, Clearing(0, [])));
  }

  lemma AboutToDrain()
    ensures Reachable(Turn([1, 2], false, false, false, true, Draining(0)))
  {
    hide Reachable, Called, Drained;
    EventfdIsRead();
    var s1 := Turn([1, 2], false, false, true, false, Clearing(0, []));
    var s2 := Turn([1, 2], false, false, false, true, Dispatching([]));
    Goes(s1, ClearLamp, s2);
    Goes(s2, EndDispatch, Turn([1, 2], false, false, false, true, Draining(0)));
  }

  /** A state of the second half of the run: the drain, with three functors pushed at most. */
  function Drain(queue: seq<Functor>, pushed: seq<Functor>, caller: Caller, batches: seq<Batch>, ran: seq<nat>,
                 overtook: bool): State
    requires |queue| <= |pushed|
  {
    State(3, [queue], [0], [false], [false], false, true, Draining(1), [caller], [pushed], [|pushed| - |queue|],
          batches, [ran], [overtook])
  }

  lemma TwoTaken()
    ensures Reachable(Drain([], [1, 2], Idle, [Batch(0, 0, 2, false)], [], false))
  {
    hide Reachable, Called, Watched;
    AboutToDrain();
    var s := Turn([1, 2], false, false, false, true, Draining(0));
    var s1 := Drain([], [1, 2], Idle, [Batch(0, 0, 2, false)], [], false);
    assert s.queues[0] == [1, 2] && s.queues[0][2..] == [] && s.batches + s1.batches == s1.batches;
    Goes(s, PopAll, s1);
  }

  lemma FirstRuns()
    ensures Reachable(Drain([], [1, 2], Idle, [Batch(0, 1, 2, true)], [0], false))
  {
    hide Reachable, Called, Watched;
    TwoTaken();
    var s1 := Drain([], [1, 2], Idle, [Batch(0, 0, 2, false)], [], false);
    assert s1.ran[0] + [0] == [0];
    Goes(s1, RunNext, Drain([], [1, 2], Idle, [Batch(0, 1, 2, true)], [0], false));
  }

  lemma ThirdIsPushed()
    ensures Reachable(Drain([3], [1, 2, 3], MustCas(0), [Batch(0, 1, 2, true)], [0], false))
  {
    hide Reachable, Drained, Watched;
    FirstRuns();
    var s := Drain([], [1, 2], Idle, [Batch(0, 1, 2, true)], [0], false);
    assert s.queues[0] + [3] == [3] && s.pushed[0] + [3] == [1, 2, 3];
    Goes(s, Push(0, 0, 3), Drain([3], [1, 2, 3], MustCas(0), [Batch(0, 1, 2, true)], [0], false));
  }

  lemma ThirdRuns()
    ensures Reachable(Drain([], [1, 2, 3], MustCas(0), [Batch(0, 1, 2, true), Batch(0, 3, 3, true)], [0, 2], true))
  {
    hide Reachable, Called, Watched;
    ThirdIsPushed();
    var s := Drain([3], [1, 2, 3], MustCas(0), [Batch(0, 1, 2, true)], [0], false);
    var s1 := Drain([], [1, 2, 3], MustCas(0), [Batch(0, 1, 2, true), Batch(0, 2, 3, false)], [0], true);
    assert HasUnfinished(s.batches, 0) by { assert s.batches[0].queue == 0; }
    assert s.queues[0][1..] == [];
    Goes(s, NestedPopAll(0), s1);
    assert [0] + [2] == [0, 2];
    Goes(s1, RunNext,
         Drain([], [1, 2, 3], MustCas(0), [Batch(0, 1, 2, true), Batch(0, 3, 3, true)], [0, 2], true));
  }

  /**
   A functor that drains the queues makes those pushed meanwhile run before the
   rest of its own batch: pushed as 1, 2, 3, run as 1, 3, 2.
   */
  lemma NestedDrainOvertakes()
    ensures exists s ::
      Reachable(s) && s.batches == [] && s.pushed == [[1, 2, 3]] && s.ran == [[0, 2, 1]] && s.overtook == [true]
  {
    hide Reachable, Called, Watched;
    ThirdRuns();
    var s := Drain([], [1, 2, 3], MustCas(0), [Batch(0, 1, 2, true), Batch(0, 3, 3, true)], [0, 2], true);
    var s1 := s.(batches := [Batch(0, 1, 2, true)]);
    assert s.batches[..1] == s1.batches;
    Goes(s, EndBatch, s1);
    assert [0, 2] + [1] == [0, 2, 1];
    var s2 := s1.(batches := [Batch(0, 2, 2, true)], ran := [[0, 2, 1]]);
    Goes(s1, RunNext, s2);
    Goes(s2, EndBatch, s2.(batches := []));
  }

  predicate TakesOne(a: Action) {
    !a.PopAll? && !a.NestedPopAll?
  }

  /** Batches of one: all but the innermost are finished. */
  predicate AllSpent(s: State) {
    && (forall i :: 0 <= i < |s.batches| ==>
          s.batches[i].end <= s.batches[i].next + if s.batches[i].running then 0 else 1)
    && (forall i :: 0 <= i < |s.batches| - 1 ==> s.batches[i].running)
  }

  lemma SpentStep(s: State, a: Action, q: nat)
    requires WellFormed(s) && Enabled(s, a) && TakesOne(a) && q < |s.queues|
    requires AllSpent(s) && !s.overtook[q]
    ensures AllSpent(Apply(s, a)) && q < |Apply(s, a).overtook| && !Apply(s, a).overtook[q]
  {
    hide CallersInRange, LoopInRange, ReadyIsDistinct, Called, Watched;
  }

  lemma {:induction false} SpentRun(s: State, actions: seq<Action>, s': State, q: nat)
    requires Runs(s, actions, s') && WellFormed(s) && q < |s.queues|
    requires forall k :: 0 <= k < |actions| ==> TakesOne(actions[k])
    requires AllSpent(s) && !s.overtook[q]
    ensures q < |s'.overtook| && !s'.overtook[q]
    decreases |actions|
  {
    hide Apply, Enabled, AllSpent;
    if actions != [] {
      WellFormedStep(s, actions[0]);
      SpentStep(s, actions[0], q);
      SpentRun(Apply(s, actions[0]), actions[1..], s', q);
    }
  }

  /** With the lock-free queue, which gives out one functor at a time, the order always holds. */
  lemma OneAtATimeIsInOrder(s: State, q: nat, queues: nat, callers: nat, actions: seq<Action>)
    requires queues >= 1 && Runs(Initial(s.capacity, queues, callers), actions, s) && q < queues
    requires forall k :: 0 <= k < |actions| ==> TakesOne(actions[k])
    ensures q < |s.ran| && IsInOrder(s.ran[q])
  {
    InvInitial(s.capacity, queues, callers);
    SpentRun(Initial(s.capacity, queues, callers), actions, s, q);
    RunInv(Initial(s.capacity, queues, callers), actions, s);
    assert QueueInv(s, q);
  }
}
