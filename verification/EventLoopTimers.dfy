/**
 The event loop's timers and its alarm: an ordered set of timers and one kernel
 alarm (a timerfd, watched edge-triggered) that is moved only when it has to be.

 A step of the run is a call on the loop's own thread, or an act of the kernel.
 `heap` holds the timer objects that have not been deleted.
 */
module EventLoopTimers {
  import opened Timer
  import opened TimerContainer
  import opened Wrappers

  /**
   The timerfd: when it is armed for, whether it has expired since it was last
   set or read, whether epoll has an event to report and whether it has reported one.
   */
  datatype Timerfd = Timerfd(alarm: Option<int>, expired: bool, edge: bool, reported: bool)

  /** History of a timer: as it was made, the latest expiry it waited for, and the runs of its callback. */
  datatype Account = Account(born: ValidTimer, seen: int, runs: nat)

  datatype Loop = Loop(
    container: seq<Entry>,
    heap: map<Address, ValidTimer>,
    next: int,                              // _next_earliest_expiration_time
    triggered: bool,                        // _timerfd_triggered
    polling: bool,                          // about to block in poll
    timerfd: Timerfd,
    now: int,
    threshold: int,
    aborted: bool,                          // the kernel has refused an alarm time, which is fatal
    ledger: map<Address, Account>,          // history of the timers in the heap
    closed: seq<Account>)                   // history of those deleted

  /** Before the constructor adds its own timer. */
  function EmptyLoop(now: int, threshold: int): Loop {
    Loop([], map[], FOREVER, false, true, Timerfd(None, false, false, false), now, threshold, false, map[], [])
  }

  /** Three seconds, in nanoseconds. */
  const YELL_INTERVAL: int := 3_000_000_000

  /** The endless timer that every loop holds from the start. */
  function YellTimer(now: int): ValidTimer {
    NewTimer(now + YELL_INTERVAL, YELL_INTERVAL, -1)
  }

  /** `yell` is the address of that timer. */
  function NewLoop(now: int, threshold: int, yell: Address): Loop {
    Act(EmptyLoop(now, threshold), Add(yell, YellTimer(now)))
  }

  // ------------------------------------------------------------------ the alarm

  /** The kernel refuses a negative time, and time zero disarms the timerfd. */
  function AlarmSet(s: Loop, time: int): Loop {
    if time < 0 then s.(aborted := true, next := time)
    else
      s.(timerfd := s.timerfd.(alarm := if time == 0 then None else Some(time), expired := false), next := time)
  }

  function AlarmCancelled(s: Loop): Loop {
    s.(timerfd := s.timerfd.(alarm := None, expired := false), next := FOREVER)
  }

  /** Everything but the alarm is the same. */
  predicate IsAlarmChange(s: Loop, r: Loop) {
    && r == s.(timerfd := r.timerfd, next := r.next, aborted := r.aborted)
    && r.timerfd.reported == s.timerfd.reported && (s.aborted ==> r.aborted)
  }

  /** After an insertion: the alarm moves forward if the earliest timer is due early enough. */
  function AlarmAdvanced(s: Loop): (r: Loop)
    ensures IsAlarmChange(s, r)
  {
    var e := Earliest(s.container);
    if e < s.next - s.threshold then AlarmSet(s, e) else s
  }

  /** After a removal: the alarm moves back, or is cancelled when no timer is left. */
  function AlarmDelayed(s: Loop): (r: Loop)
    ensures IsAlarmChange(s, r)
  {
    if s.container == [] then AlarmCancelled(s)
    else
      var e := Earliest(s.container);
      if s.next < e then AlarmSet(s, e) else s
  }

  // ------------------------------------------------------------------- the calls

  function TimerAt(s: Loop, a: Address): ValidTimer {
    if a in s.heap then s.heap[a] else TimerValue(0, 0, 0)
  }

  function AccountAt(s: Loop, a: Address): Account {
    if a in s.ledger then s.ledger[a] else Account(TimerValue(0, 0, 0), -1, 0)
  }

  function EntryOf(s: Loop, a: Address): Entry {
    Entry(TimerAt(s, a).expiration, a)
  }

  function Created(s: Loop, a: Address, t: ValidTimer): Loop {
    s.(heap := s.heap[a := t], ledger := s.ledger[a := Account(t, t.expiration - 1, 0)])
  }

  function Deleted(s: Loop, a: Address): Loop {
    s.(heap := s.heap - {a}, ledger := s.ledger - {a}, closed := s.closed + [AccountAt(s, a)])
  }

  function Added(s: Loop, a: Address): (r: Loop)
    requires IsSorted(s.container)
    ensures IsSorted(r.container)
  {
    AlarmAdvanced(s.(container := Inserted(s.container, EntryOf(s, a))))
  }

  /** The timer object is deleted, except when it was the last one in the container. */
  function Cancelled(s: Loop, a: Address): (r: Loop)
    requires IsSorted(s.container)
    ensures IsSorted(r.container)
  {
    if EntryOf(s, a) !in s.container then s
    else
      var r := AlarmDelayed(s.(container := Removed(s.container, EntryOf(s, a))));
      if r.container == [] then r else Deleted(r, a)
  }

  /** What may happen while timer callbacks run. */
  datatype Action =
    | Tick(now: int)                        // time passes
    | Fire                                  // the kernel's alarm goes off, if it is time
    | Add(address: Address, timer: ValidTimer)
    | Cancel(address: Address)

  /** No new object is at address 0 or at the address of another; only existing timers are cancelled. */
  function Act(s: Loop, action: Action): (r: Loop)
    requires IsSorted(s.container)
    ensures IsSorted(r.container)
  {
    match action
    case Tick(now) => if now < s.now then s else s.(now := now)
    case Fire =>
      if s.timerfd.alarm.Some? && s.timerfd.alarm.value <= s.now then
        s.(timerfd := s.timerfd.(alarm := None, expired := true, edge := true))
      else s
    case Add(a, t) => if a == 0 || a in s.heap then s else Added(Created(s, a, t), a)
    case Cancel(a) => if a in s.heap then Cancelled(s, a) else s
  }

  function ActAll(s: Loop, actions: seq<Action>): (r: Loop)
    requires IsSorted(s.container)
    ensures IsSorted(r.container)
    decreases |actions|
  {
    if actions == [] then s else ActAll(Act(s, actions[0]), actions[1..])
  }

  // -------------------------------------------------------------------- an expiry

  /** What happens during the runs of one timer's callback, run by run. */
  type Script = seq<seq<Action>>

  /** The script of each timer. */
  type Callbacks = map<Address, Script>

  function ScriptOf(callbacks: Callbacks, a: Address): Script {
    if a in callbacks then callbacks[a] else []
  }

  function FirstOf(script: Script): seq<Action> {
    if script == [] then [] else script[0]
  }

  function RestOf(script: Script): Script {
    if script == [] then [] else script[1..]
  }

  function MovedOut(s: Loop, time: int): (r: Loop)
    requires IsSorted(s.container)
    ensures IsSorted(r.container)
  {
    AlarmDelayed(s.(container := s.container[DueCount(s.container, time)..], ledger := Seen(s, time)))
  }

  predicate IsHeld(s: Loop, a: Address) {
    exists k :: 0 <= k < |s.container| && s.container[k].address == a
  }

  /** History: every timer in the container has waited for this expiry. */
  function Seen(s: Loop, time: int): map<Address, Account> {
    map a | a in s.ledger :: if IsHeld(s, a) then s.ledger[a].(seen := Max(s.ledger[a].seen, time)) else s.ledger[a]
  }

  /** The callback has run once and the timer object holds what is left of it. */
  function Ran(s: Loop, a: Address, t: ValidTimer): Loop {
    s.(heap := s.heap[a := t], ledger := s.ledger[a := AccountAt(s, a).(runs := AccountAt(s, a).runs + 1)])
  }

  /** `expire_until`, with what the callback does in each of its runs. */
  function TimerRun(s: Loop, a: Address, t: ValidTimer, time: int, script: Script): (r: Loop)
    requires IsSorted(s.container)
    ensures IsSorted(r.container)
    decreases time - t.expiration
  {
    var once := ExpiredOnce(t);
    var s1 := Ran(ActAll(s, FirstOf(script)), a, once.timer);
    if !once.valid || once.timer.expiration > time then s1 else TimerRun(s1, a, once.timer, time, RestOf(script))
  }

  /** The timer has repetitions left after an expiry. */
  predicate StaysValid(s: Loop, a: Address, time: int) {
    ExpiredUntil(TimerAt(s, a), time).valid
  }

  /** One timer of the batch: its callback runs, then it is kept or deleted. */
  function TimerExpired(s: Loop, a: Address, time: int, callbacks: Callbacks): (r: Loop)
    requires IsSorted(s.container)
    ensures IsSorted(r.container)
  {
    var r := TimerRun(s, a, TimerAt(s, a), time, ScriptOf(callbacks, a));
    if StaysValid(s, a, time) then r else Deleted(r, a)
  }

  function BatchExpired(s: Loop, batch: seq<Entry>, time: int, callbacks: Callbacks): (r: Loop)
    requires IsSorted(s.container)
    ensures IsSorted(r.container)
    decreases |batch|
  {
    if batch == [] then s
    else BatchExpired(TimerExpired(s, batch[0].address, time, callbacks), batch[1..], time, callbacks)
  }

  /** The timers of the batch with repetitions left. */
  function StillValid(s: Loop, batch: seq<Entry>, time: int, callbacks: Callbacks): seq<Address>
    requires IsSorted(s.container)
    decreases |batch|
  {
    if batch == [] then []
    else
      var a := batch[0].address;
      (if StaysValid(s, a, time) then [a] else [])
      + StillValid(TimerExpired(s, a, time, callbacks), batch[1..], time, callbacks)
  }

  function PutBack(s: Loop, timers: seq<Address>): (r: Loop)
    requires IsSorted(s.container)
    ensures IsSorted(r.container)
    ensures r == s.(container := r.container)
    decreases |timers|
  {
    if timers == [] then s
    else PutBack(s.(container := Inserted(s.container, EntryOf(s, timers[0]))), timers[1..])
  }

  /** `_expire_timers_and_update_alarm` */
  function Expired(s: Loop, time: int, callbacks: Callbacks): (r: Loop)
    requires IsSorted(s.container)
    ensures IsSorted(r.container)
  {
    var batch := s.container[..DueCount(s.container, time)];
    var s1 := MovedOut(s, time);
    var s2 := BatchExpired(s1, batch, time, callbacks);
    var valid := StillValid(s1, batch, time, callbacks);
    if valid == [] then s2 else AlarmAdvanced(PutBack(s2, valid))
  }

  // --------------------------------------------------------------------- the loop

  datatype Event =
    | Acted(action: Action)
    | Poll(spurious: bool)                  // epoll may report an edge whose expiration is gone
    | ReadTimerfd
    | Expire(time: int, callbacks: Callbacks)
    | CheckTimerfd(callbacks: Callbacks)    // the last part of a turn of the loop

  function Step(s: Loop, event: Event): (r: Loop)
    requires IsSorted(s.container)
    ensures IsSorted(r.container)
  {
    match event
    case Acted(action) => Act(s, action)
    case Poll(spurious) =>
      if !s.polling then s
      else
        var fd := s.timerfd;
        s.(polling := false, timerfd := fd.(edge := false, reported := fd.edge && (fd.expired || spurious)))
    case ReadTimerfd =>
      if s.polling || !s.timerfd.reported then s
      else s.(timerfd := s.timerfd.(expired := false, reported := false), triggered := true)
    case Expire(time, callbacks) => Expired(s, time, callbacks)
    case CheckTimerfd(callbacks) =>
      if s.polling || s.timerfd.reported then s
      else (if s.triggered then Expired(s, s.now, callbacks) else s).(triggered := false, polling := true)
  }

  function After(s: Loop, events: seq<Event>): (r: Loop)
    requires IsSorted(s.container)
    ensures IsSorted(r.container)
    decreases |events|
  {
    if events == [] then s else After(Step(s, events[0]), events[1..])
  }

  ghost predicate IsRun(now: int, threshold: nat, yell: Address, events: seq<Event>, s: Loop) {
    yell != 0 && s == After(NewLoop(now, threshold, yell), events)
  }

  /** A state of a loop, whatever was done to it and whatever the kernel and the clock did. */
  ghost predicate Reachable(s: Loop) {
    exists now, threshold: nat, yell, events :: IsRun(now, threshold, yell, events, s)
  }

  // -------------------------------------------------------------------- invariant

  /** Entries carry the current expiration of an existing timer. */
  ghost predicate Consistent(s: Loop) {
    && IsSorted(s.container)
    && forall e :: e in s.container ==> e.address in s.heap && s.heap[e.address].expiration == e.time
  }

  /**
   The alarm is armed for `next`, or it has gone off and someone is yet to look:
   epoll, the read, or (unless its trigger is spent) the end of the loop's turn.
   */
  predicate AlarmCovers(s: Loop, spent: bool) {
    || s.next == FOREVER
    || s.timerfd.alarm == Some(s.next)
    || (s.next <= s.now && s.timerfd.expired && (s.timerfd.edge || s.timerfd.reported))
    || (s.next <= s.now && s.triggered && !spent)
  }

  /** The alarm was set for time zero. */
  predicate IsBlind(s: Loop) {
    s.timerfd.alarm == None && !s.timerfd.expired && s.container != [] && Earliest(s.container) <= 0
  }

  predicate Timely(s: Loop) {
    s.container != [] ==> s.next <= Earliest(s.container) + s.threshold
  }

  /** The alarm and the container agree, unless the program was aborted. */
  predicate AlarmInv(s: Loop, spent: bool) {
    s.threshold >= 0 &&
    (!s.aborted ==> Timely(s) && s.next >= 0 && if s.next == 0 then IsBlind(s) else AlarmCovers(s, spent))
  }

  ghost predicate Inv(s: Loop, spent: bool) {
    Consistent(s) && AlarmInv(s, spent)
  }

  /** Moved out of the container, and not deleted. */
  ghost predicate InFlight(s: Loop, a: Address) {
    a in s.heap && forall e :: e in s.container ==> e.address != a
  }

  /** With fewer entries the earliest is no earlier. */
  lemma FewerIsLater(s: seq<Entry>, fewer: seq<Entry>)
    requires IsSorted(s) && fewer != [] && forall e :: e in fewer ==> e in s
    ensures s != [] && Earliest(s) <= Earliest(fewer)
  {
    assert fewer[0] in fewer;
    EarliestIsLeast(s, fewer[0]);
  }

  /** Entries are added: the alarm is advanced if need be. */
  lemma AdvancedKeepsAlarm(s: Loop, more: seq<Entry>, spent: bool)
    requires AlarmInv(s, spent) && IsSorted(s.container) && IsSorted(more)
    requires more != [] && forall e :: e in s.container ==> e in more
    ensures AlarmInv(AlarmAdvanced(s.(container := more)), spent)
  {
    if s.container != [] { FewerIsLater(more, s.container); }
  }

  /** Entries are taken out: the alarm is delayed if need be. */
  lemma DelayedKeepsAlarm(s: Loop, fewer: seq<Entry>, spent: bool)
    requires AlarmInv(s, spent) && IsSorted(s.container) && IsSorted(fewer)
    requires forall e :: e in fewer ==> e in s.container
    ensures AlarmInv(AlarmDelayed(s.(container := fewer)), spent)
  {
    if fewer != [] { FewerIsLater(s.container, fewer); }
  }

  /** The alarm's agreement does not depend on the timer objects. */
  lemma ObjectsDoNotMatter(s: Loop, r: Loop, spent: bool)
    requires r == s.(heap := r.heap, ledger := r.ledger, closed := r.closed)
    ensures AlarmInv(r, spent) == AlarmInv(s, spent)
  {
  }

  // --------------------------------------------------------- what every call keeps

  lemma AddKeepsInv(s: Loop, a: Address, t: ValidTimer, spent: bool)
    requires Inv(s, spent) && a !in s.heap
    ensures Inv(Added(Created(s, a, t), a), spent)
  {
    hide AlarmAdvanced, AlarmInv;
    var s1 := Created(s, a, t);
    var more := Inserted(s1.container, EntryOf(s1, a));
    assert EntryOf(s1, a) in more;
    ObjectsDoNotMatter(s, s1, spent);
    AdvancedKeepsAlarm(s1, more, spent);
  }

  lemma CancelKeepsInv(s: Loop, a: Address, spent: bool)
    requires Inv(s, spent) && a in s.heap
    ensures Inv(Cancelled(s, a), spent)
  {
    hide AlarmDelayed, AlarmInv;
    var e := EntryOf(s, a);
    if e in s.container {
      var fewer := Removed(s.container, e);
      DelayedKeepsAlarm(s, fewer, spent);
      var r := AlarmDelayed(s.(container := fewer));
      ObjectsDoNotMatter(r, Deleted(r, a), spent);
    }
  }

  lemma ActKeepsInv(s: Loop, action: Action, spent: bool)
    requires Inv(s, spent)
    ensures Inv(Act(s, action), spent) && Act(s, action).now >= s.now
  {
    hide Added, Cancelled;
    match action
    case Tick(now) =>
    case Fire =>
    case Add(a, t) => if a != 0 && a !in s.heap { AddKeepsInv(s, a, t, spent); AddKeepsRest(s, a, t); }
    case Cancel(a) => if a in s.heap { CancelKeepsInv(s, a, spent); CancelKeepsRest(s, a); }
  }

  /** What only the loop itself changes. */
  predicate IsSameTurn(s: Loop, r: Loop) {
    && r.polling == s.polling && r.triggered == s.triggered && r.timerfd.reported == s.timerfd.reported
    && r.threshold == s.threshold && (s.aborted ==> r.aborted)
  }

  lemma AddKeepsRest(s: Loop, a: Address, t: ValidTimer)
    requires IsSorted(s.container)
    ensures
      var r := Added(Created(s, a, t), a);
      && IsSameTurn(s, r) && r.now == s.now
      && r.heap == s.heap[a := t] && r.container == Inserted(s.container, Entry(t.expiration, a))
      && r.ledger == s.ledger[a := Account(t, t.expiration - 1, 0)] && r.closed == s.closed
  {
    hide AlarmAdvanced;
  }

  lemma CancelKeepsRest(s: Loop, a: Address)
    requires IsSorted(s.container)
    ensures
      var r := Cancelled(s, a);
      && IsSameTurn(s, r) && r.now == s.now && r.container == Removed(s.container, EntryOf(s, a))
      && if EntryOf(s, a) in s.container && r.container != [] then
           r.heap == s.heap - {a} && r.ledger == s.ledger - {a} && r.closed == s.closed + [AccountAt(s, a)]
         else r.heap == s.heap && r.ledger == s.ledger && r.closed == s.closed
  {
    hide AlarmDelayed, Removed;
    if EntryOf(s, a) !in s.container { RemovingAbsent(s.container, EntryOf(s, a)); }
  }

  lemma ActKeepsConsistent(s: Loop, action: Action)
    requires Consistent(s)
    ensures Consistent(Act(s, action))
  {
    hide Added, Cancelled;
    match action
    case Tick(now) =>
    case Fire =>
    case Add(b, t) => AddKeepsRest(s, b, t);
    case Cancel(b) => CancelKeepsRest(s, b);
  }

  /** A call leaves alone the timers that are out of the container. */
  lemma ActKeepsInFlight(s: Loop, action: Action, a: Address)
    requires Consistent(s) && InFlight(s, a)
    ensures
      var r := Act(s, action);
      InFlight(r, a) && r.heap[a] == s.heap[a] && AccountAt(r, a) == AccountAt(s, a)
  {
    hide Added, Cancelled;
    match action
    case Tick(now) =>
    case Fire =>
    case Add(b, t) => AddKeepsRest(s, b, t);
    case Cancel(b) => CancelKeepsRest(s, b);
  }

  /** In particular, cancelling such a timer does nothing. */
  lemma CancelInFlightHasNoEffect(s: Loop, a: Address)
    requires IsSorted(s.container) && InFlight(s, a)
    ensures Act(s, Cancel(a)) == s
  {
  }

  lemma {:induction false} ActAllKeepsInv(s: Loop, actions: seq<Action>, spent: bool)
    requires Inv(s, spent)
    ensures Inv(ActAll(s, actions), spent) && ActAll(s, actions).now >= s.now
    decreases |actions|
  {
    hide Act, AlarmInv;
    if actions != [] {
      ActKeepsInv(s, actions[0], spent);
      ActAllKeepsInv(Act(s, actions[0]), actions[1..], spent);
    }
  }

  lemma {:induction false} ActAllKeepsConsistent(s: Loop, actions: seq<Action>)
    requires Consistent(s)
    ensures Consistent(ActAll(s, actions))
    decreases |actions|
  {
    hide Act;
    if actions != [] {
      ActKeepsConsistent(s, actions[0]);
      ActAllKeepsConsistent(Act(s, actions[0]), actions[1..]);
    }
  }

  lemma {:induction false} ActAllKeepsInFlight(s: Loop, actions: seq<Action>, a: Address)
    requires Consistent(s) && InFlight(s, a)
    ensures
      var r := ActAll(s, actions);
      InFlight(r, a) && r.heap[a] == s.heap[a] && AccountAt(r, a) == AccountAt(s, a)
    decreases |actions|
  {
    hide Act;
    if actions != [] {
      ActKeepsConsistent(s, actions[0]);
      ActKeepsInFlight(s, actions[0], a);
      ActAllKeepsInFlight(Act(s, actions[0]), actions[1..], a);
    }
  }

  // ------------------------------------------------------------ running one timer

  /** Whatever the callback does, the timer ends as its own expiry says, with its runs counted. */
  lemma {:induction false} TimerRunOutcome(s: Loop, a: Address, t: ValidTimer, time: int, script: Script)
    requires Consistent(s) && InFlight(s, a) && s.heap[a] == t
    ensures
      var r := TimerRun(s, a, t, time, script);
      var o := ExpiredUntil(t, time);
      && Consistent(r) && InFlight(r, a) && r.heap[a] == o.timer
      && AccountAt(r, a) == AccountAt(s, a).(runs := AccountAt(s, a).runs + o.runs)
    decreases time - t.expiration
  {
    hide ActAll;
    ActAllKeepsConsistent(s, FirstOf(script));
    ActAllKeepsInFlight(s, FirstOf(script), a);
    var once := ExpiredOnce(t);
    var s1 := Ran(ActAll(s, FirstOf(script)), a, once.timer);
    if once.valid && once.timer.expiration <= time { TimerRunOutcome(s1, a, once.timer, time, RestOf(script)); }
  }

  lemma {:induction false} TimerRunKeepsOthers(
      s: Loop, a: Address, t: ValidTimer, time: int, script: Script, b: Address)
    requires Consistent(s) && InFlight(s, a) && InFlight(s, b) && a != b
    ensures
      var r := TimerRun(s, a, t, time, script);
      InFlight(r, b) && r.heap[b] == s.heap[b] && AccountAt(r, b) == AccountAt(s, b)
    decreases time - t.expiration
  {
    hide ActAll;
    ActAllKeepsConsistent(s, FirstOf(script));
    ActAllKeepsInFlight(s, FirstOf(script), a);
    ActAllKeepsInFlight(s, FirstOf(script), b);
    var once := ExpiredOnce(t);
    var s1 := Ran(ActAll(s, FirstOf(script)), a, once.timer);
    if once.valid && once.timer.expiration <= time { TimerRunKeepsOthers(s1, a, once.timer, time, RestOf(script), b); }
  }

  lemma {:induction false} TimerRunKeepsInv(
      s: Loop, a: Address, t: ValidTimer, time: int, script: Script, spent: bool)
    requires Inv(s, spent) && InFlight(s, a)
    ensures
      var r := TimerRun(s, a, t, time, script);
      Inv(r, spent) && r.now >= s.now
    decreases time - t.expiration
  {
    hide ActAll, AlarmInv;
    ActAllKeepsInv(s, FirstOf(script), spent);
    ActAllKeepsInFlight(s, FirstOf(script), a);
    var once := ExpiredOnce(t);
    var s1 := ActAll(s, FirstOf(script));
    var s2 := Ran(s1, a, once.timer);
    ObjectsDoNotMatter(s1, s2, spent);
    if once.valid && once.timer.expiration <= time { TimerRunKeepsInv(s2, a, once.timer, time, RestOf(script), spent); }
  }

  /** One turn of the loop of `expire_until`. */
  lemma RunOfTimer(s: Loop, a: Address, time: int, script: Script)
    requires IsSorted(s.container) && a in s.heap
    ensures
      var once := ExpiredOnce(s.heap[a]);
      var s1 := Ran(ActAll(s, FirstOf(script)), a, once.timer);
      var isLast := !once.valid || once.timer.expiration > time;
      && TimerRun(s, a, s.heap[a], time, script) ==
           (if isLast then s1 else TimerRun(s1, a, once.timer, time, RestOf(script)))
      && ExpiredUntil(s.heap[a], time).valid == if isLast then once.valid else ExpiredUntil(once.timer, time).valid
  {
    hide ActAll;
  }

  // ----------------------------------------------------------- expiring a batch

  /** The timers of a batch, out of the container, each once. */
  ghost predicate IsBatch(s: Loop, batch: seq<Entry>) {
    && (forall k :: 0 <= k < |batch| ==>
          InFlight(s, batch[k].address) && s.heap[batch[k].address].expiration == batch[k].time)
    && (forall j, k :: 0 <= j < k < |batch| ==> batch[j].address != batch[k].address)
  }

  lemma MoveOutKeepsRest(s: Loop, time: int)
    requires IsSorted(s.container)
    ensures
      var r := MovedOut(s, time);
      && IsSameTurn(s, r) && r.now == s.now && r.heap == s.heap && r.closed == s.closed
      && r.container == s.container[DueCount(s.container, time)..] && r.ledger == Seen(s, time)
  {
    hide AlarmDelayed;
  }

  lemma MovedOutIsBatch(s: Loop, time: int)
    requires Consistent(s)
    ensures
      var batch := s.container[..DueCount(s.container, time)];
      && Consistent(MovedOut(s, time)) && IsBatch(MovedOut(s, time), batch)
      && forall k :: 0 <= k < |batch| ==> MovedOut(s, time).heap[batch[k].address] == s.heap[batch[k].address]
  {
    hide MovedOut;
    var n := DueCount(s.container, time);
    var batch, rest := s.container[..n], s.container[n..];
    MoveOutKeepsRest(s, time);
    forall k | 0 <= k < n ensures InFlight(MovedOut(s, time), batch[k].address) {
      assert s.container[k] in s.container;
      forall e | e in rest ensures e.address != batch[k].address {
        var j :| 0 <= j < |rest| && rest[j] == e;
        assert s.container[n + j] == e && e in s.container;
      }
    }
    forall j, k | 0 <= j < k < n ensures batch[j].address != batch[k].address {
      assert s.container[j] in s.container && s.container[k] in s.container && Less(s.container[j], s.container[k]);
    }
    forall k | 0 <= k < n ensures s.container[k] in s.container {}
  }

  lemma MoveOutKeepsInv(s: Loop, time: int, spent: bool)
    requires Inv(s, spent)
    ensures Inv(MovedOut(s, time), spent)
  {
    hide AlarmDelayed, AlarmInv;
    var s1 := s.(ledger := Seen(s, time));
    ObjectsDoNotMatter(s, s1, spent);
    DelayedKeepsAlarm(s1, s.container[DueCount(s.container, time)..], spent);
  }

  /** Taking out what is due by now uses up the trigger: afterwards the alarm covers the rest without it. */
  lemma MoveOutSpendsTrigger(s: Loop)
    requires Inv(s, false) && s.triggered
    ensures Inv(MovedOut(s, s.now), true)
  {
    MoveOutKeepsInv(s, s.now, false);
    var rest := s.container[DueCount(s.container, s.now)..];
    if rest != [] {
      assert Earliest(rest) > s.now;
    }
  }

  lemma TimerExpiredOutcome(s: Loop, a: Address, time: int, callbacks: Callbacks)
    requires Consistent(s) && InFlight(s, a)
    ensures
      var r := TimerExpired(s, a, time, callbacks);
      var o := ExpiredUntil(s.heap[a], time);
      && Consistent(r) && (StaysValid(s, a, time) <==> o.valid)
      && (o.valid ==> InFlight(r, a) && r.heap[a] == o.timer)
      && (!o.valid ==> a !in r.heap)
  {
    hide TimerRun, ExpiredUntil;
    TimerRunOutcome(s, a, s.heap[a], time, ScriptOf(callbacks, a));
  }

  lemma TimerExpiredKeepsOthers(s: Loop, a: Address, time: int, callbacks: Callbacks, b: Address)
    requires Consistent(s) && InFlight(s, a) && InFlight(s, b) && b != a
    ensures
      var r := TimerExpired(s, a, time, callbacks);
      InFlight(r, b) && r.heap[b] == s.heap[b] && AccountAt(r, b) == AccountAt(s, b)
  {
    hide TimerRun, ExpiredUntil;
    TimerRunKeepsOthers(s, a, s.heap[a], time, ScriptOf(callbacks, a), b);
  }

  lemma TimerExpiredKeepsInv(s: Loop, a: Address, time: int, callbacks: Callbacks, spent: bool)
    requires Inv(s, spent) && InFlight(s, a)
    ensures
      var r := TimerExpired(s, a, time, callbacks);
      Inv(r, spent) && r.now >= s.now
  {
    hide TimerRun, ExpiredUntil, AlarmInv;
    TimerExpiredOutcome(s, a, time, callbacks);
    TimerRunKeepsInv(s, a, s.heap[a], time, ScriptOf(callbacks, a), spent);
    var r := TimerRun(s, a, s.heap[a], time, ScriptOf(callbacks, a));
    ObjectsDoNotMatter(r, Deleted(r, a), spent);
  }

  lemma HeadIsInFlight(s: Loop, batch: seq<Entry>)
    requires IsBatch(s, batch) && batch != []
    ensures InFlight(s, batch[0].address)
  {
  }

  /** The rest of the batch is as it was when the first of it has expired. */
  lemma BatchHeadExpires(s: Loop, batch: seq<Entry>, time: int, callbacks: Callbacks)
    requires Consistent(s) && batch != [] && IsBatch(s, batch)
    ensures
      var r := TimerExpired(s, batch[0].address, time, callbacks);
      && Consistent(r) && IsBatch(r, batch[1..])
      && forall k :: 1 <= k < |batch| ==> r.heap[batch[k].address] == s.heap[batch[k].address]
  {
    hide TimerExpired, StaysValid, ExpiredUntil;
    TimerExpiredOutcome(s, batch[0].address, time, callbacks);
    var r := TimerExpired(s, batch[0].address, time, callbacks);
    forall k | 1 <= k < |batch|
      ensures InFlight(r, batch[k].address) && r.heap[batch[k].address] == s.heap[batch[k].address]
    {
      TimerExpiredKeepsOthers(s, batch[0].address, time, callbacks, batch[k].address);
    }
    var rest := batch[1..];
    assert forall k :: 0 <= k < |rest| ==> rest[k] == batch[k + 1];
  }

  /** One turn of the loop over the batch. */
  lemma FirstOfBatch(s: Loop, batch: seq<Entry>, time: int, callbacks: Callbacks)
    requires IsSorted(s.container) && batch != []
    ensures
      var a := batch[0].address;
      var s1 := TimerExpired(s, a, time, callbacks);
      && BatchExpired(s, batch, time, callbacks) == BatchExpired(s1, batch[1..], time, callbacks)
      && StillValid(s, batch, time, callbacks) ==
           (if StaysValid(s, a, time) then [a] else []) + StillValid(s1, batch[1..], time, callbacks)
  {
    hide TimerExpired, StaysValid;
  }

  lemma Grown(valid: seq<Address>, first: seq<Address>, later: seq<Address>)
    ensures valid + (first + later) == valid + first + later
  {
  }

  lemma EndOfBatch(s: Loop, time: int, callbacks: Callbacks)
    requires IsSorted(s.container)
    ensures BatchExpired(s, [], time, callbacks) == s && StillValid(s, [], time, callbacks) == []
  {
  }

  lemma {:induction false} BatchKeepsInv(s: Loop, batch: seq<Entry>, time: int, callbacks: Callbacks, spent: bool)
    requires Inv(s, spent) && IsBatch(s, batch)
    ensures
      var r := BatchExpired(s, batch, time, callbacks);
      Inv(r, spent) && r.now >= s.now
    decreases |batch|
  {
    hide TimerExpired, AlarmInv, IsBatch;
    if batch != [] {
      HeadIsInFlight(s, batch);
      BatchHeadExpires(s, batch, time, callbacks);
      TimerExpiredKeepsInv(s, batch[0].address, time, callbacks, spent);
      BatchKeepsInv(TimerExpired(s, batch[0].address, time, callbacks), batch[1..], time, callbacks, spent);
    }
  }

  lemma {:induction false} BatchKeepsConsistent(s: Loop, batch: seq<Entry>, time: int, callbacks: Callbacks)
    requires Consistent(s) && IsBatch(s, batch)
    ensures Consistent(BatchExpired(s, batch, time, callbacks))
    decreases |batch|
  {
    hide TimerExpired, IsBatch;
    if batch != [] {
      BatchHeadExpires(s, batch, time, callbacks);
      BatchKeepsConsistent(TimerExpired(s, batch[0].address, time, callbacks), batch[1..], time, callbacks);
    }
  }

  lemma {:induction false} BatchKeepsOthers(s: Loop, batch: seq<Entry>, time: int, callbacks: Callbacks, b: Address)
    requires Consistent(s) && IsBatch(s, batch)
    requires InFlight(s, b) && forall k :: 0 <= k < |batch| ==> batch[k].address != b
    ensures
      var r := BatchExpired(s, batch, time, callbacks);
      InFlight(r, b) && r.heap[b] == s.heap[b] && AccountAt(r, b) == AccountAt(s, b)
    decreases |batch|
  {
    hide TimerExpired, IsBatch;
    if batch != [] {
      HeadIsInFlight(s, batch);
      BatchHeadExpires(s, batch, time, callbacks);
      TimerExpiredKeepsOthers(s, batch[0].address, time, callbacks, b);
      BatchKeepsOthers(TimerExpired(s, batch[0].address, time, callbacks), batch[1..], time, callbacks, b);
    }
  }

  lemma {:induction false} ValidComeFromBatch(s: Loop, batch: seq<Entry>, time: int, callbacks: Callbacks)
    requires IsSorted(s.container)
    ensures forall a :: a in StillValid(s, batch, time, callbacks) ==>
      exists k :: 0 <= k < |batch| && batch[k].address == a
    decreases |batch|
  {
    hide TimerExpired, StaysValid;
    if batch != [] {
      var rest := batch[1..];
      ValidComeFromBatch(TimerExpired(s, batch[0].address, time, callbacks), rest, time, callbacks);
      forall a | a in StillValid(s, batch, time, callbacks)
        ensures exists k :: 0 <= k < |batch| && batch[k].address == a
      {
        if a != batch[0].address {
          assert a in StillValid(TimerExpired(s, batch[0].address, time, callbacks), rest, time, callbacks);
          var k :| 0 <= k < |rest| && rest[k].address == a;
          assert batch[k + 1].address == a;
        }
      }
    }
  }

  /** Each timer of the batch ends up as its own expiry says, whatever the callbacks do. */
  lemma {:induction false} BatchOutcome(s: Loop, batch: seq<Entry>, time: int, callbacks: Callbacks, k: nat)
    requires Consistent(s) && IsBatch(s, batch) && k < |batch|
    ensures
      var r := BatchExpired(s, batch, time, callbacks);
      var a := batch[k].address;
      var o := ExpiredUntil(s.heap[a], time);
      && (o.valid <==> a in StillValid(s, batch, time, callbacks))
      && (o.valid ==> InFlight(r, a) && r.heap[a] == o.timer)
    decreases |batch|
  {
    hide TimerExpired, StaysValid, ExpiredUntil;
    var s1 := TimerExpired(s, batch[0].address, time, callbacks);
    BatchHeadExpires(s, batch, time, callbacks);
    TimerExpiredOutcome(s, batch[0].address, time, callbacks);
    if k == 0 {
      ValidComeFromBatch(s1, batch[1..], time, callbacks);
      if ExpiredUntil(s.heap[batch[0].address], time).valid {
        BatchKeepsOthers(s1, batch[1..], time, callbacks, batch[0].address);
      }
    } else {
      BatchOutcome(s1, batch[1..], time, callbacks, k - 1);
    }
  }

  lemma ValidSurvive(s: Loop, batch: seq<Entry>, time: int, callbacks: Callbacks, a: Address)
    requires Consistent(s) && IsBatch(s, batch)
    requires a in StillValid(s, batch, time, callbacks)
    ensures a in BatchExpired(s, batch, time, callbacks).heap
    ensures BatchExpired(s, batch, time, callbacks).heap[a].expiration > time
  {
    hide BatchExpired, StillValid;
    ValidComeFromBatch(s, batch, time, callbacks);
    var k :| 0 <= k < |batch| && batch[k].address == a;
    BatchOutcome(s, batch, time, callbacks, k);
  }

  lemma {:induction false} PutBackKeepsConsistent(s: Loop, timers: seq<Address>)
    requires Consistent(s) && forall k :: 0 <= k < |timers| ==> timers[k] in s.heap
    ensures Consistent(PutBack(s, timers))
    ensures forall e ::
      e in PutBack(s, timers).container <==> e in s.container || (e.address in timers && e == EntryOf(s, e.address))
    decreases |timers|
  {
    if timers != [] {
      var s1 := s.(container := Inserted(s.container, EntryOf(s, timers[0])));
      PutBackKeepsConsistent(s1, timers[1..]);
      assert timers == [timers[0]] + timers[1..];
    }
  }

  /** The state after a batch and what is put back into it. */
  lemma ExpiryInParts(s: Loop, time: int, callbacks: Callbacks)
    requires Consistent(s)
    ensures
      var batch := s.container[..DueCount(s.container, time)];
      var s1 := MovedOut(s, time);
      var s2 := BatchExpired(s1, batch, time, callbacks);
      var valid := StillValid(s1, batch, time, callbacks);
      var r := Expired(s, time, callbacks);
      && Consistent(s1) && IsBatch(s1, batch) && Consistent(s2) && Consistent(PutBack(s2, valid)) && Consistent(r)
      && r == s2.(container := r.container, timerfd := r.timerfd, next := r.next, aborted := r.aborted)
      && (forall a :: a in valid ==> a in s2.heap && s2.heap[a].expiration > time)
      && (forall e :: e in r.container <==> e in s2.container || (e.address in valid && e == EntryOf(s2, e.address)))
  {
    hide MovedOut, BatchExpired, StillValid, AlarmAdvanced, ExpiredUntil, PutBack;
    var batch := s.container[..DueCount(s.container, time)];
    var s1 := MovedOut(s, time);
    MovedOutIsBatch(s, time);
    BatchKeepsConsistent(s1, batch, time, callbacks);
    var s2 := BatchExpired(s1, batch, time, callbacks);
    var valid := StillValid(s1, batch, time, callbacks);
    forall a | a in valid ensures a in s2.heap && s2.heap[a].expiration > time {
      ValidSurvive(s1, batch, time, callbacks, a);
    }
    PutBackKeepsConsistent(s2, valid);
  }

  lemma ExpiryKeepsInv(s: Loop, time: int, callbacks: Callbacks, spent: bool)
    requires Consistent(s) && Inv(MovedOut(s, time), spent)
    ensures Inv(Expired(s, time, callbacks), spent) && Expired(s, time, callbacks).now >= s.now
  {
    hide MovedOut, BatchExpired, StillValid, AlarmInv, AlarmAdvanced, ExpiredUntil, PutBack;
    var batch := s.container[..DueCount(s.container, time)];
    var s1 := MovedOut(s, time);
    ExpiryInParts(s, time, callbacks);
    MoveOutKeepsRest(s, time);
    BatchKeepsInv(s1, batch, time, callbacks, spent);
    var s2 := BatchExpired(s1, batch, time, callbacks);
    var valid := StillValid(s1, batch, time, callbacks);
    if valid != [] {
      PutBackKeepsConsistent(s2, valid);
      var more := PutBack(s2, valid).container;
      assert EntryOf(s2, valid[0]) in more;
      AdvancedKeepsAlarm(s2, more, spent);
    }
  }

  // ------------------------------------------------------------ no forgotten timer

  ghost predicate LoopInv(s: Loop) {
    && Inv(s, false)
    && (s.polling ==> !s.triggered && !s.timerfd.reported)
  }

  lemma ActKeepsTurn(s: Loop, action: Action)
    requires IsSorted(s.container)
    ensures IsSameTurn(s, Act(s, action))
  {
    hide Added, Cancelled;
    match action
    case Tick(now) =>
    case Fire =>
    case Add(a, t) => AddKeepsRest(s, a, t);
    case Cancel(a) => CancelKeepsRest(s, a);
  }

  lemma {:induction false} ActAllKeepsTurn(s: Loop, actions: seq<Action>)
    requires IsSorted(s.container)
    ensures IsSameTurn(s, ActAll(s, actions))
    decreases |actions|
  {
    hide Act;
    if actions != [] {
      ActKeepsTurn(s, actions[0]);
      ActAllKeepsTurn(Act(s, actions[0]), actions[1..]);
    }
  }

  lemma {:induction false} TimerRunKeepsTurn(s: Loop, a: Address, t: ValidTimer, time: int, script: Script)
    requires IsSorted(s.container)
    ensures IsSameTurn(s, TimerRun(s, a, t, time, script))
    decreases time - t.expiration
  {
    hide ActAll;
    ActAllKeepsTurn(s, FirstOf(script));
    var once := ExpiredOnce(t);
    var s1 := Ran(ActAll(s, FirstOf(script)), a, once.timer);
    if once.valid && once.timer.expiration <= time { TimerRunKeepsTurn(s1, a, once.timer, time, RestOf(script)); }
  }

  lemma {:induction false} BatchKeepsTurn(s: Loop, batch: seq<Entry>, time: int, callbacks: Callbacks)
    requires IsSorted(s.container)
    ensures IsSameTurn(s, BatchExpired(s, batch, time, callbacks))
    decreases |batch|
  {
    hide TimerRun, ExpiredUntil;
    if batch != [] {
      var a := batch[0].address;
      TimerRunKeepsTurn(s, a, TimerAt(s, a), time, ScriptOf(callbacks, a));
      BatchKeepsTurn(TimerExpired(s, a, time, callbacks), batch[1..], time, callbacks);
    }
  }

  lemma ExpiryKeepsTurn(s: Loop, time: int, callbacks: Callbacks)
    requires IsSorted(s.container)
    ensures IsSameTurn(s, Expired(s, time, callbacks))
  {
    hide BatchExpired, StillValid, MovedOut, AlarmAdvanced, PutBack;
    MoveOutKeepsRest(s, time);
    BatchKeepsTurn(MovedOut(s, time), s.container[..DueCount(s.container, time)], time, callbacks);
  }

  lemma CheckKeepsInv(s: Loop, callbacks: Callbacks)
    requires LoopInv(s)
    ensures LoopInv(Step(s, CheckTimerfd(callbacks)))
    ensures Step(s, CheckTimerfd(callbacks)).threshold == s.threshold
  {
    hide Expired;
    if !s.polling && !s.timerfd.reported && s.triggered {
      MoveOutSpendsTrigger(s);
      ExpiryKeepsInv(s, s.now, callbacks, true);
      ExpiryKeepsTurn(s, s.now, callbacks);
    }
  }

  lemma StepKeepsInv(s: Loop, event: Event)
    requires LoopInv(s)
    ensures LoopInv(Step(s, event)) && Step(s, event).threshold == s.threshold
  {
    hide Act, Expired;
    match event
    case Acted(action) =>
      ActKeepsInv(s, action, false);
      ActKeepsTurn(s, action);
    case Poll(_) =>
    case ReadTimerfd =>
    case Expire(time, callbacks) =>
      MoveOutKeepsInv(s, time, false);
      ExpiryKeepsInv(s, time, callbacks, false);
      ExpiryKeepsTurn(s, time, callbacks);
    case CheckTimerfd(callbacks) => CheckKeepsInv(s, callbacks);
  }

  lemma {:induction false} RunKeepsInv(s: Loop, events: seq<Event>)
    requires LoopInv(s)
    ensures LoopInv(After(s, events)) && After(s, events).threshold == s.threshold
    decreases |events|
  {
    hide Step, AlarmInv;
    if events != [] {
      StepKeepsInv(s, events[0]);
      RunKeepsInv(Step(s, events[0]), events[1..]);
    }
  }

  lemma NewLoopInv(now: int, threshold: nat, yell: Address)
    ensures LoopInv(NewLoop(now, threshold, yell)) && NewLoop(now, threshold, yell).threshold == threshold
  {
    hide Act;
    var s := EmptyLoop(now, threshold);
    ActKeepsInv(s, Add(yell, YellTimer(now)), false);
    ActKeepsTurn(s, Add(yell, YellTimer(now)));
  }

  lemma ReachableInv(s: Loop)
    requires Reachable(s)
    ensures LoopInv(s)
  {
    hide LoopInv;
    var now, threshold: nat, yell, events :| IsRun(now, threshold, yell, events, s);
    NewLoopInv(now, threshold, yell);
    RunKeepsInv(NewLoop(now, threshold, yell), events);
  }

  /** The timerfd is armed early enough for the earliest timer, or went off then and epoll will report it. */
  predicate IsRemembered(s: Loop) {
    && s.next <= Earliest(s.container) + s.threshold
    && (s.timerfd.alarm == Some(s.next) || (s.timerfd.expired && s.timerfd.edge && s.next <= s.now))
  }

  /**
   No forgotten timer: whenever the loop is about to block and the earliest timer
   is due early enough to need an alarm, the timerfd is armed for, or has gone off at,
   a time not later than that plus the threshold; if and only if the alarm in force
   is not one for time zero.  It is not when all timers are due later than that.
   */
  lemma NoForgottenTimer(s: Loop)
    requires Reachable(s) && s.polling && !s.aborted
    requires s.container != [] && Earliest(s.container) < FOREVER - s.threshold
    ensures IsRemembered(s) <==> s.next != 0
    ensures Earliest(s.container) > 0 ==> s.next != 0
  {
    ReachableInv(s);
  }

  /**
   Nor does the loop sleep past a due timer: when the clock gets there, epoll reports
   the timerfd once the kernel acts.
   */
  lemma DueAlarmIsReported(s: Loop, clock: int)
    requires Reachable(s) && s.polling && !s.aborted && s.container != [] && s.next != 0
    requires Earliest(s.container) + s.threshold <= Max(s.now, clock) && Earliest(s.container) < FOREVER - s.threshold
    ensures IsSorted(s.container)
    ensures
      var r := Step(Act(Act(s, Tick(clock)), Fire), Poll(false));
      && r.timerfd.reported && !r.polling && r.now == Max(s.now, clock)
      && r.container == s.container && r.heap == s.heap
  {
    ReachableInv(s);
    NoForgottenTimer(s);
  }

  /**
   epoll reports the timerfd for an edge only, and once: it is then gone, and another poll
   in the same state reports nothing.
   */
  lemma PollTakesTheEdge(s: Loop, spurious: bool)
    requires Reachable(s) && s.polling
    ensures IsSorted(s.container)
    ensures
      var r := Step(s, Poll(spurious));
      && r == s.(polling := false, timerfd := r.timerfd) && r.timerfd.alarm == s.timerfd.alarm
      && !r.timerfd.edge && r.timerfd.expired == s.timerfd.expired
      && (r.timerfd.reported ==> s.timerfd.edge)
      && (s.timerfd.edge && s.timerfd.expired ==> r.timerfd.reported)
      && !Step(r.(polling := true), Poll(true)).timerfd.reported
  {
    ReachableInv(s);
  }

  /** What a new loop is like: it holds its three-second timer, with the alarm set for it if that can be. */
  lemma NewLoopHoldsItsTimer(now: int, threshold: nat, yell: Address)
    requires yell != 0 && now + 3_000_000_000 >= 0
    ensures
      var s, first := NewLoop(now, threshold, yell), now + 3_000_000_000;
      && s.container == [Entry(first, yell)] && s.heap == map[yell := TimerValue(first, 3_000_000_000, -1)]
      && s.polling && !s.triggered && !s.aborted
      && !s.timerfd.expired && !s.timerfd.edge && !s.timerfd.reported
      && (if first < FOREVER - threshold then s.next == first && (first > 0 ==> s.timerfd.alarm == Some(first))
          else s.next == FOREVER && s.timerfd.alarm == None)
  {
    var s := Created(EmptyLoop(now, threshold), yell, YellTimer(now));
    InsertingIntoNone(EntryOf(s, yell));
  }

  /** The stored time of each entry is its timer's current expiration, and the timer has not been deleted. */
  lemma EntriesAreCurrent(s: Loop, e: Entry)
    requires Reachable(s) && e in s.container
    ensures e.address in s.heap && s.heap[e.address].expiration == e.time
  {
    ReachableInv(s);
  }

  // ---------------------------------------------------- alarms for time zero and before

  /**
   What a new timer does to the alarm, for every timer and every loop: it puts an
   alarm for time zero in force exactly when it is due then and the present alarm is
   more than the threshold later, and it aborts the program exactly when it is due before.
   */
  lemma AddSetsZeroAlarm(s: Loop, a: Address, t: ValidTimer)
    requires Inv(s, false) && !s.aborted && a != 0 && a !in s.heap
    ensures
      var r := Act(s, Add(a, t));
      && (r.aborted <==> t.expiration < 0 && t.expiration < s.next - s.threshold)
      && (!r.aborted ==> (r.next == 0 <==> s.next == 0 || (t.expiration == 0 && s.threshold < s.next)))
  {
    var s1 := Created(s, a, t);
    var e := EntryOf(s1, a);
    var more := Inserted(s1.container, e);
    assert e in more && more[0] in more;
    EarliestIsLeast(more, e);
    if s.container != [] { EarliestIsLeast(more, s.container[0]); }
  }

  /**
   The alarm is moved only when it must be.  A new timer moves it, to its own time, only if
   it is due more than the threshold before the alarm.
   */
  lemma AddMovesAlarm(s: Loop, a: Address, t: ValidTimer)
    requires Inv(s, false) && !s.aborted && a != 0 && a !in s.heap
    ensures
      var r := Act(s, Add(a, t));
      && (forall e :: e in r.container <==> e in s.container || e == Entry(t.expiration, a))
      && (if t.expiration < s.next - s.threshold then
            r.next == t.expiration && (t.expiration > 0 ==> r.timerfd.alarm == Some(t.expiration) && !r.timerfd.expired)
          else r.next == s.next && r.timerfd == s.timerfd)
  {
    var s1 := Created(s, a, t);
    var e := EntryOf(s1, a);
    var more := Inserted(s1.container, e);
    assert e in more && more[0] in more;
    EarliestIsLeast(more, e);
    if s.container != [] { EarliestIsLeast(more, s.container[0]); }
  }

  /**
   Taking a timer out moves the alarm only if it would go off before the earliest of those
   left, and then to that one's time; with none left it is cancelled.
   */
  lemma CancelMovesAlarm(s: Loop, a: Address, e: Entry)
    requires Inv(s, false) && !s.aborted && a in s.heap && EntryOf(s, a) in s.container
    ensures
      var r := Act(s, Cancel(a));
      && (r.container == [] ==> r.next == FOREVER && r.timerfd.alarm == None && !r.timerfd.expired)
      && (e in r.container && (forall x :: x in r.container ==> e.time <= x.time) ==>
            if s.next < e.time then r.next == e.time && r.timerfd.alarm == Some(e.time) && !r.timerfd.expired
            else r.next == s.next && r.timerfd == s.timerfd)
  {
    CancelKeepsRest(s, a);
    var r := Act(s, Cancel(a));
    if e in r.container {
      EarliestIsLeast(r.container, e);
      assert r.container[0] in r.container;
    }
  }

  /** A new timer is covered at once unless such an alarm is in force and the turn's trigger does not make up for it. */
  lemma AddIsCovered(s: Loop, a: Address, t: ValidTimer)
    requires Inv(s, false) && !s.aborted && a != 0 && a !in s.heap
    ensures
      var r := Act(s, Add(a, t));
      !r.aborted ==> (AlarmCovers(r, false) <==> r.next != 0 || (s.triggered && 0 <= s.now))
  {
    hide Act, AlarmAdvanced;
    ActKeepsInv(s, Add(a, t), false);
    AddKeepsRest(s, a, t);
    ActKeepsTurn(s, Add(a, t));
    assert Act(s, Add(a, t)).now == s.now by { AddKeepsClock(s, a, t); }
  }

  lemma AddKeepsClock(s: Loop, a: Address, t: ValidTimer)
    requires IsSorted(s.container)
    ensures Act(s, Add(a, t)).now == s.now
  {
  }

  /** It happens in a loop with nothing but its own timer in it, and then keeps a later timer from being noticed too. */
  lemma ZeroTimeStarvesOthers(
      now: nat, threshold: nat, yell: Address, a: Address, b: Address, t: ValidTimer, u: ValidTimer)
    requires yell != 0 && a != 0 && b != 0 && yell != a && yell != b && a != b
    requires t.expiration == 0 && u.expiration >= 0 && threshold < now + YELL_INTERVAL < FOREVER - threshold
    ensures
      var s := Act(Act(NewLoop(now, threshold, yell), Add(a, t)), Add(b, u));
      && Reachable(s) && s.polling && !s.aborted && !IsRemembered(s)
      && Entry(u.expiration, b) in s.container && EntryOf(s, yell) in s.container
  {
    hide Act, Reachable;
    var s0 := EmptyLoop(now, threshold);
    var s1, s2 := NewLoop(now, threshold, yell), Act(NewLoop(now, threshold, yell), Add(a, t));
    var s3 := Act(s2, Add(b, u));
    AddsAreDone(s0, yell, YellTimer(now));
    AddsAreDone(s1, a, t);
    AddsAreDone(s2, b, u);
    NewLoopInv(now, threshold, yell);
    FirstAlarm(now, threshold, yell);
    AddSetsZeroAlarm(s1, a, t);
    ActKeepsInv(s1, Add(a, t), false);
    AddSetsZeroAlarm(s2, b, u);
    ActKeepsInv(s2, Add(b, u), false);
    TwoActsAreReachable(now, threshold, yell, Add(a, t), Add(b, u));
  }

  lemma AddsAreDone(s: Loop, a: Address, t: ValidTimer)
    requires IsSorted(s.container) && a != 0 && a !in s.heap
    ensures
      var r := Act(s, Add(a, t));
      && r.container == Inserted(s.container, Entry(t.expiration, a)) && r.heap == s.heap[a := t]
      && r.polling == s.polling
  {
    AddKeepsRest(s, a, t);
  }

  lemma FirstAlarm(now: nat, threshold: nat, yell: Address)
    requires yell != 0 && now + YELL_INTERVAL < FOREVER - threshold
    ensures
      var s := NewLoop(now, threshold, yell);
      s.next == now + YELL_INTERVAL && !s.aborted && s.heap.Keys == {yell}
  {
    var s := Created(EmptyLoop(now, threshold), yell, YellTimer(now));
    InsertingIntoNone(EntryOf(s, yell));
  }

  /** The loop's own timer goes on for ever, every three seconds. */
  lemma OwnTimerNeverEnds(now: int, times: seq<int>)
    requires IsSchedule(times) && times != []
    ensures RunsOver(YellTimer(now), times) ==
      if times[|times| - 1] < now + 3_000_000_000 then 0
      else (times[|times| - 1] - (now + 3_000_000_000)) / 3_000_000_000 + 1
  {
    CallbackRuns(now + YELL_INTERVAL, YELL_INTERVAL, -1, times);
  }

  lemma AfterOne(s: Loop, event: Event)
    requires IsSorted(s.container)
    ensures After(s, [event]) == Step(s, event)
  {
    hide Step;
    assert [event][1..] == [];
  }

  lemma TwoActsAreReachable(now: int, threshold: nat, yell: Address, first: Action, second: Action)
    requires yell != 0
    ensures Reachable(Act(Act(NewLoop(now, threshold, yell), first), second))
  {
    hide Act;
    var s := NewLoop(now, threshold, yell);
    var s1 := Act(s, first);
    var events := [Acted(first), Acted(second)];
    assert events[1..] == [Acted(second)];
    AfterOne(s1, Acted(second));
    assert Act(s1, second).threshold == threshold by {
      NewLoopInv(now, threshold, yell);
      RunKeepsInv(s, events);
    }
    assert IsRun(now, threshold, yell, events, Act(s1, second));
  }

  // ------------------------------------------------------------------ cancellation

  /** No timer at `a` is waiting. */
  ghost predicate IsNotHeld(s: Loop, a: Address) {
    forall e :: e in s.container ==> e.address != a
  }

  /** Cancelling a timer that is held takes it out, and no other. */
  lemma CancelRemovesHeld(s: Loop, a: Address, e: Entry)
    requires Consistent(s) && EntryOf(s, a) in s.container
    ensures
      var r := Cancelled(s, a);
      IsNotHeld(r, a) && (e in r.container <==> e in s.container && e.address != a)
  {
    CancelKeepsRest(s, a);
  }

  /** The timer object is deleted unless it was the last one: then nobody deletes it any more. */
  lemma CancelFreesUnlessLast(s: Loop, a: Address)
    requires Consistent(s) && EntryOf(s, a) in s.container
    ensures a !in Cancelled(s, a).heap <==> s.container != [EntryOf(s, a)]
  {
    var e := EntryOf(s, a);
    CancelKeepsRest(s, a);
    if Removed(s.container, e) == [] { SortedIsUnique(s.container, [e]); }
  }

  // ---------------------------------------------- what holds of every waiting timer

  ghost predicate AllAre(s: Loop, p: Entry -> bool) {
    forall e :: e in s.container ==> p(e)
  }

  predicate AddsAre(actions: seq<Action>, p: Entry -> bool) {
    forall k :: 0 <= k < |actions| ==> AddIs(actions[k], p)
  }

  predicate AddIs(action: Action, p: Entry -> bool) {
    action.Add? ==> p(Entry(action.timer.expiration, action.address))
  }

  predicate ScriptAdds(script: Script, p: Entry -> bool) {
    forall k :: 0 <= k < |script| ==> AddsAre(script[k], p)
  }

  /** Whatever the callbacks add has the property. */
  predicate CallbacksAdd(callbacks: Callbacks, p: Entry -> bool) {
    forall a :: a in callbacks ==> ScriptAdds(callbacks[a], p)
  }

  lemma ActKeepsAll(s: Loop, action: Action, p: Entry -> bool)
    requires IsSorted(s.container) && AllAre(s, p) && AddIs(action, p)
    ensures AllAre(Act(s, action), p)
  {
    hide Added, Cancelled;
    match action
    case Tick(now) =>
    case Fire =>
    case Add(a, t) => AddKeepsRest(s, a, t);
    case Cancel(a) => CancelKeepsRest(s, a);
  }

  lemma {:induction false} ActAllKeepsAll(s: Loop, actions: seq<Action>, p: Entry -> bool)
    requires IsSorted(s.container) && AllAre(s, p) && AddsAre(actions, p)
    ensures AllAre(ActAll(s, actions), p)
    decreases |actions|
  {
    hide Act, AllAre, AddIs;
    if actions != [] {
      ActKeepsAll(s, actions[0], p);
      ActAllKeepsAll(Act(s, actions[0]), actions[1..], p);
    }
  }

  lemma {:induction false} TimerRunKeepsAll(
      s: Loop, a: Address, t: ValidTimer, time: int, script: Script, p: Entry -> bool)
    requires IsSorted(s.container) && AllAre(s, p) && ScriptAdds(script, p)
    ensures AllAre(TimerRun(s, a, t, time, script), p)
    decreases time - t.expiration
  {
    hide ActAll, AddsAre;
    assert AddsAre([], p) by { NothingAdded(p); }
    ActAllKeepsAll(s, FirstOf(script), p);
    var once := ExpiredOnce(t);
    var s1 := Ran(ActAll(s, FirstOf(script)), a, once.timer);
    if once.valid && once.timer.expiration <= time { TimerRunKeepsAll(s1, a, once.timer, time, RestOf(script), p); }
  }

  lemma NothingAdded(p: Entry -> bool)
    ensures AddsAre([], p)
  {
  }

  lemma {:induction false} BatchKeepsAll(s: Loop, batch: seq<Entry>, time: int, callbacks: Callbacks, p: Entry -> bool)
    requires IsSorted(s.container) && AllAre(s, p) && CallbacksAdd(callbacks, p)
    ensures AllAre(BatchExpired(s, batch, time, callbacks), p)
    decreases |batch|
  {
    hide TimerRun, ExpiredUntil;
    if batch != [] {
      var a := batch[0].address;
      TimerRunKeepsAll(s, a, TimerAt(s, a), time, ScriptOf(callbacks, a), p);
      BatchKeepsAll(TimerExpired(s, a, time, callbacks), batch[1..], time, callbacks, p);
    }
  }

  /** When the callbacks add nothing that is due, everything left after an expiry is due strictly later. */
  lemma NothingDueIsLeft(s: Loop, time: int, callbacks: Callbacks, e: Entry)
    requires Consistent(s) && CallbacksAdd(callbacks, (x: Entry) => x.time > time)
    ensures e in Expired(s, time, callbacks).container ==> e.time > time
  {
    hide MovedOut, BatchExpired, StillValid, Expired, PutBack;
    var p := (x: Entry) => x.time > time;
    var batch := s.container[..DueCount(s.container, time)];
    ExpiryInParts(s, time, callbacks);
    MoveOutKeepsRest(s, time);
    assert AllAre(MovedOut(s, time), p);
    BatchKeepsAll(MovedOut(s, time), batch, time, callbacks, p);
  }

  predicate AddsNothingAt(callbacks: Callbacks, a: Address) {
    CallbacksAdd(callbacks, (x: Entry) => x.address != a)
  }

  lemma ExpiryKeepsNotHeld(s: Loop, time: int, callbacks: Callbacks, a: Address)
    requires Consistent(s) && IsNotHeld(s, a) && AddsNothingAt(callbacks, a)
    ensures IsNotHeld(Expired(s, time, callbacks), a)
  {
    hide MovedOut, BatchExpired, StillValid, Expired, PutBack;
    var p := (x: Entry) => x.address != a;
    var batch := s.container[..DueCount(s.container, time)];
    ExpiryInParts(s, time, callbacks);
    MoveOutKeepsRest(s, time);
    assert AllAre(MovedOut(s, time), p);
    BatchKeepsAll(MovedOut(s, time), batch, time, callbacks, p);
    ValidComeFromBatch(MovedOut(s, time), batch, time, callbacks);
    forall b | b in StillValid(MovedOut(s, time), batch, time, callbacks) ensures b != a {
      var j :| 0 <= j < |batch| && batch[j].address == b;
      assert s.container[j] in s.container;
    }
  }

  predicate DoesNotAdd(event: Event, a: Address) {
    match event
    case Acted(action) => AddIs(action, (x: Entry) => x.address != a)
    case Expire(_, callbacks) => AddsNothingAt(callbacks, a)
    case CheckTimerfd(callbacks) => AddsNothingAt(callbacks, a)
    case _ => true
  }

  lemma StepKeepsConsistent(s: Loop, event: Event)
    requires Consistent(s)
    ensures Consistent(Step(s, event))
  {
    hide Act, Expired;
    match event
    case Acted(action) => ActKeepsConsistent(s, action);
    case Poll(_) =>
    case ReadTimerfd =>
    case Expire(time, callbacks) => ExpiryInParts(s, time, callbacks);
    case CheckTimerfd(callbacks) => if s.triggered { ExpiryInParts(s, s.now, callbacks); }
  }

  /**
   A timer that is out of the container between two calls, as a cancelled one
   is, never waits again, so it never fires again, until a new one is made in its place.
   */
  lemma {:induction false} CancelledNeverFires(s: Loop, events: seq<Event>, a: Address)
    requires Consistent(s) && IsNotHeld(s, a)
    requires forall k :: 0 <= k < |events| ==> DoesNotAdd(events[k], a)
    ensures IsNotHeld(After(s, events), a)
    decreases |events|
  {
    hide Expired, Act, AddsNothingAt, AddIs;
    if events != [] {
      assert DoesNotAdd(events[0], a);
      match events[0] {
        case Acted(action) => ActKeepsAll(s, action, (x: Entry) => x.address != a);
        case Poll(_) =>
        case ReadTimerfd =>
        case Expire(time, callbacks) => ExpiryKeepsNotHeld(s, time, callbacks, a);
        case CheckTimerfd(callbacks) =>
          if s.triggered { ExpiryKeepsNotHeld(s, s.now, callbacks, a); }
      }
      StepKeepsConsistent(s, events[0]);
      CancelledNeverFires(Step(s, events[0]), events[1..], a);
    }
  }

  /**
   After an expiry each timer that was due is where its own expiry puts it,
   whatever the callbacks did, cancelling it included: it waits again if and only if
   it has repetitions left, and otherwise it has been deleted; a new timer may then
   have been made at its address.
   */
  lemma ExpiryOutcome(s: Loop, time: int, callbacks: Callbacks, e: Entry)
    requires Consistent(s) && e in s.container && e.time <= time
    ensures
      var r := Expired(s, time, callbacks);
      var o := ExpiredUntil(s.heap[e.address], time);
      && (o.valid ==> Entry(o.timer.expiration, e.address) in r.container && TimerAt(r, e.address) == o.timer)
      && (AddsNothingAt(callbacks, e.address) ==>
           (o.valid <==> !IsNotHeld(r, e.address)) && (o.valid <==> e.address in r.heap))
  {
    hide MovedOut, BatchExpired, StillValid, Expired, PutBack, ExpiredUntil, AddsNothingAt;
    var a := e.address;
    var batch := s.container[..DueCount(s.container, time)];
    var s1 := MovedOut(s, time);
    ExpiryInParts(s, time, callbacks);
    MoveOutKeepsRest(s, time);
    DueAreTakenInOrder(s.container, time, e);
    var k :| 0 <= k < |batch| && batch[k] == e;
    BatchOutcome(s1, batch, time, callbacks, k);
    var s2, r := BatchExpired(s1, batch, time, callbacks), Expired(s, time, callbacks);
    if ExpiredUntil(s.heap[a], time).valid {
      assert EntryOf(s2, a) in r.container;
    } else if AddsNothingAt(callbacks, a) {
      EndedIsGone(s1, batch, time, callbacks, k);
      assert r.heap == s2.heap;
    }
  }

  /**
   From the alarm to the callbacks: a loop that blocks with its earliest timer due by the
   clock is woken, and by the end of that turn every timer due by then has expired:
   it waits again exactly as its own expiry says.
   */
  lemma DueTimersExpire(s: Loop, clock: int, callbacks: Callbacks, e: Entry)
    requires Reachable(s) && s.polling && !s.aborted && s.next != 0
    requires Earliest(s.container) + s.threshold <= Max(s.now, clock) && Earliest(s.container) < FOREVER - s.threshold
    requires e in s.container && e.time <= Max(s.now, clock)
    ensures IsSorted(s.container) && e.address in s.heap
    ensures
      var woken := Step(Act(Act(s, Tick(clock)), Fire), Poll(false));
      var r := Step(Step(woken, ReadTimerfd), CheckTimerfd(callbacks));
      var o := ExpiredUntil(s.heap[e.address], Max(s.now, clock));
      && r.polling
      && (o.valid ==> Entry(o.timer.expiration, e.address) in r.container && TimerAt(r, e.address) == o.timer)
      && (AddsNothingAt(callbacks, e.address) ==> (o.valid <==> !IsNotHeld(r, e.address)))
  {
    ReachableInv(s);
    DueAlarmIsReported(s, clock);
    var woken := Step(Act(Act(s, Tick(clock)), Fire), Poll(false));
    hide Act, Step, Expired, ExpiredUntil, AlarmInv, Reachable;
    ReportedTurn(woken, callbacks);
    ExpiryOutcome(Step(woken, ReadTimerfd), woken.now, callbacks, e);
  }

  /** The same of the expiry by which a loop that has been stopped does what is due before it returns. */
  lemma LastTimersExpire(s: Loop, time: int, callbacks: Callbacks, e: Entry)
    requires Reachable(s) && e in s.container && e.time <= time
    ensures IsSorted(s.container) && e.address in s.heap
    ensures
      var r := Step(s, Expire(time, callbacks));
      var o := ExpiredUntil(s.heap[e.address], time);
      && (o.valid ==> Entry(o.timer.expiration, e.address) in r.container && TimerAt(r, e.address) == o.timer)
      && (AddsNothingAt(callbacks, e.address) ==> (o.valid <==> !IsNotHeld(r, e.address)))
  {
    hide Act, Expired, ExpiredUntil, AlarmInv;
    ReachableInv(s);
    ExpiryOutcome(s, time, callbacks, e);
  }

  /** The rest of a turn that the timerfd was reported in. */
  lemma ReportedTurn(s: Loop, callbacks: Callbacks)
    requires IsSorted(s.container) && s.timerfd.reported && !s.polling
    ensures
      var s1 := Step(s, ReadTimerfd);
      && s1.container == s.container && s1.heap == s.heap && s1.now == s.now
      && s1.triggered && s1.timerfd == s.timerfd.(expired := false, reported := false)
      && Step(s1, CheckTimerfd(callbacks)) == Expired(s1, s.now, callbacks).(triggered := false, polling := true)
  {
    hide Expired;
  }

  // ------------------------------------------------------------- deleted for good

  lemma ActKeepsGone(s: Loop, action: Action, a: Address)
    requires IsSorted(s.container) && a !in s.heap && AddIs(action, (x: Entry) => x.address != a)
    ensures a !in Act(s, action).heap
  {
    hide Added, Cancelled;
    match action
    case Tick(now) =>
    case Fire =>
    case Add(b, t) => AddKeepsRest(s, b, t);
    case Cancel(b) => CancelKeepsRest(s, b);
  }

  lemma {:induction false} ActAllKeepsGone(s: Loop, actions: seq<Action>, a: Address)
    requires IsSorted(s.container) && a !in s.heap && AddsAre(actions, (x: Entry) => x.address != a)
    ensures a !in ActAll(s, actions).heap
    decreases |actions|
  {
    hide Act, AddIs;
    if actions != [] {
      ActKeepsGone(s, actions[0], a);
      ActAllKeepsGone(Act(s, actions[0]), actions[1..], a);
    }
  }

  lemma {:induction false} TimerRunKeepsGone(
      s: Loop, b: Address, t: ValidTimer, time: int, script: Script, a: Address)
    requires IsSorted(s.container) && a !in s.heap && a != b && ScriptAdds(script, (x: Entry) => x.address != a)
    ensures a !in TimerRun(s, b, t, time, script).heap
    decreases time - t.expiration
  {
    hide ActAll, AddsAre;
    var p := (x: Entry) => x.address != a;
    assert AddsAre([], p) by { NothingAdded(p); }
    ActAllKeepsGone(s, FirstOf(script), a);
    var once := ExpiredOnce(t);
    var s1 := Ran(ActAll(s, FirstOf(script)), b, once.timer);
    if once.valid && once.timer.expiration <= time { TimerRunKeepsGone(s1, b, once.timer, time, RestOf(script), a); }
  }

  lemma {:induction false} BatchKeepsGone(s: Loop, batch: seq<Entry>, time: int, callbacks: Callbacks, a: Address)
    requires IsSorted(s.container) && a !in s.heap && AddsNothingAt(callbacks, a)
    requires forall k :: 0 <= k < |batch| ==> batch[k].address != a
    ensures a !in BatchExpired(s, batch, time, callbacks).heap
    decreases |batch|
  {
    hide TimerRun, ExpiredUntil;
    if batch != [] {
      var b := batch[0].address;
      TimerRunKeepsGone(s, b, TimerAt(s, b), time, ScriptOf(callbacks, b), a);
      BatchKeepsGone(TimerExpired(s, b, time, callbacks), batch[1..], time, callbacks, a);
    }
  }

  lemma {:induction false} EndedIsGone(s: Loop, batch: seq<Entry>, time: int, callbacks: Callbacks, k: nat)
    requires Consistent(s) && IsBatch(s, batch) && k < |batch| && AddsNothingAt(callbacks, batch[k].address)
    requires !ExpiredUntil(s.heap[batch[k].address], time).valid
    ensures
      var r := BatchExpired(s, batch, time, callbacks);
      batch[k].address !in r.heap && (Consistent(r) ==> IsNotHeld(r, batch[k].address))
    decreases |batch|
  {
    hide TimerExpired, ExpiredUntil, AddsNothingAt;
    var s1 := TimerExpired(s, batch[0].address, time, callbacks);
    BatchHeadExpires(s, batch, time, callbacks);
    if k == 0 {
      TimerExpiredOutcome(s, batch[0].address, time, callbacks);
      BatchKeepsGone(s1, batch[1..], time, callbacks, batch[0].address);
    } else {
      EndedIsGone(s1, batch[1..], time, callbacks, k - 1);
    }
  }

  // ---------------------------------------------------------------- the class

  class EventLoop {
    const timerContainer: TimerContainer
    var heap: map<Address, ValidTimer>
    var next: int
    var triggered: bool
    var polling: bool
    var timerfd: Timerfd
    var now: int
    const threshold: int
    var aborted: bool
    ghost var ledger: map<Address, Account>
    ghost var closed: seq<Account>

    ghost function Value(): Loop
      reads this, timerContainer
    {
      Loop(timerContainer.timers, heap, next, triggered, polling, timerfd, now, threshold, aborted, ledger, closed)
    }

    /** `yell` is the address of the timer that every loop starts with. */
    constructor (now: int, threshold: int, yell: Address)
      requires yell != 0
      ensures timerContainer.Valid() && fresh(timerContainer)
      ensures Value() == NewLoop(now, threshold, yell)
    {
      timerContainer := new TimerContainer();
      heap, next, triggered, polling := map[], FOREVER, false, true;
      timerfd := Timerfd(None, false, false, false);
      this.now, this.threshold := now, threshold;
      aborted, ledger, closed := false, map[], [];
      new;
      RunAction(Add(yell, YellTimer(now)));
    }

    /** A negative time aborts the program. */
    method SetAlarmAtTimePoint(time: int)
      modifies this`timerfd, this`next, this`aborted
      ensures Value() == AlarmSet(old(Value()), time)
    {
      if time < 0 {
        aborted := true;
      } else {
        timerfd := timerfd.(alarm := if time == 0 then None else Some(time), expired := false);
      }
      next := time;
    }

    method AddATimerAndUpdateAlarm(a: Address)
      requires timerContainer.Valid() && a in heap
      modifies this, timerContainer
      ensures timerContainer.Valid() && Value() == Added(old(Value()), a)
    {
      ghost var e, before := EntryOf(Value(), a), timerContainer.timers;
      timerContainer.InsertOne(Entry(heap[a].expiration, a));
      SortedIsUnique(timerContainer.timers, Inserted(before, e));
      AdvanceAlarm();
    }

    method AdvanceAlarm()
      requires timerContainer.Valid()
      modifies this`timerfd, this`next, this`aborted
      ensures Value() == AlarmAdvanced(old(Value()))
    {
      var earliest := timerContainer.GetEarliestExpirationTimePoint();
      if earliest < next - threshold { SetAlarmAtTimePoint(earliest); }
    }

    /** The part that both a cancellation and an expiry have. */
    method DelayAlarm()
      requires timerContainer.Valid()
      modifies this`timerfd, this`next, this`aborted
      ensures Value() == AlarmDelayed(old(Value()))
    {
      if timerContainer.timers == [] {
        timerfd := timerfd.(alarm := None, expired := false);
        next := FOREVER;
        return;
      }
      var earliest := timerContainer.GetEarliestExpirationTimePoint();
      if next < earliest { SetAlarmAtTimePoint(earliest); }
    }

    method CancelATimerAndUpdateAlarm(a: Address)
      requires timerContainer.Valid() && a in heap
      modifies this, timerContainer
      ensures timerContainer.Valid() && Value() == Cancelled(old(Value()), a)
    {
      ghost var e, before := EntryOf(Value(), a), timerContainer.timers;
      var removed := timerContainer.RemoveOne(Entry(heap[a].expiration, a));
      SortedIsUnique(timerContainer.timers, Removed(before, e));
      if !removed { return; }
      DelayAlarm();
      if timerContainer.timers == [] { return; }
      DeleteTimer(a);
    }

    method DeleteTimer(a: Address)
      modifies this`heap, this`ledger, this`closed
      ensures Value() == Deleted(old(Value()), a)
    {
      closed := closed + [AccountAt(Value(), a)];
      heap, ledger := heap - {a}, ledger - {a};
    }

    /** What user code and the kernel do while a callback runs. */
    method RunCallback(actions: seq<Action>)
      requires timerContainer.Valid()
      modifies this, timerContainer
      ensures timerContainer.Valid() && Value() == ActAll(old(Value()), actions)
    {
      hide Act;
      for k := 0 to |actions|
        invariant timerContainer.Valid()
        invariant ActAll(Value(), actions[k..]) == ActAll(old(Value()), actions)
      {
        ghost var rest := actions[k..];
        assert rest[0] == actions[k] && rest[1..] == actions[k + 1..];
        RunAction(actions[k]);
      }
    }

    method RunAction(action: Action)
      requires timerContainer.Valid()
      modifies this, timerContainer
      ensures timerContainer.Valid() && Value() == Act(old(Value()), action)
    {
      match action
      case Tick(time) => if time >= now { now := time; }
      case Fire =>
        if timerfd.alarm.Some? && timerfd.alarm.value <= now {
          timerfd := timerfd.(alarm := None, expired := true, edge := true);
        }
      case Add(a, t) =>
        if a != 0 && a !in heap {
          heap, ledger := heap[a := t], ledger[a := Account(t, t.expiration - 1, 0)];
          AddATimerAndUpdateAlarm(a);
        }
      case Cancel(a) => if a in heap { CancelATimerAndUpdateAlarm(a); }
    }

    /** Every timer it touches still exists. */
    method ExpireTimersAndUpdateAlarm(time: int, callbacks: Callbacks)
      requires Consistent(Value())
      modifies this, timerContainer
      ensures Value() == Expired(old(Value()), time, callbacks) && Consistent(Value())
    {
      hide ExpiredUntil, IsBatch, AlarmAdvanced, AlarmDelayed, BatchExpired, StillValid, PutBack;
      ExpiryInParts(Value(), time, callbacks);
      ghost var seen := Seen(Value(), time);
      var batch := timerContainer.MoveOutBeforeOrAt(time);
      ledger := seen;
      DelayAlarm();
      ghost var s1 := Value();
      assert s1 == MovedOut(old(Value()), time);
      hide MovedOut;
      var valid := ExpireBatch(batch, time, callbacks);
      if valid == [] { return; }
      InsertAll(valid);
      AdvanceAlarm();
    }

    method ExpireBatch(batch: seq<Entry>, time: int, callbacks: Callbacks) returns (valid: seq<Address>)
      requires Consistent(Value()) && IsBatch(Value(), batch)
      modifies this, timerContainer
      ensures timerContainer.Valid() && IsSorted(old(timerContainer.timers))
      ensures Value() == BatchExpired(old(Value()), batch, time, callbacks)
      ensures valid == StillValid(old(Value()), batch, time, callbacks)
    {
      hide IsBatch, TimerExpired, StaysValid, BatchExpired, StillValid;
      ghost var start := Value();
      valid := [];
      for k := 0 to |batch|
        invariant Consistent(Value()) && IsBatch(Value(), batch[k..])
        invariant BatchExpired(Value(), batch[k..], time, callbacks) == BatchExpired(start, batch, time, callbacks)
        invariant valid + StillValid(Value(), batch[k..], time, callbacks) == StillValid(start, batch, time, callbacks)
      {
        ghost var before, rest := Value(), batch[k..];
        assert rest[0] == batch[k] && rest[1..] == batch[k + 1..];
        BatchHeadExpires(before, rest, time, callbacks);
        HeadIsInFlight(before, rest);
        FirstOfBatch(before, rest, time, callbacks);
        var stays := ExpireTimer(batch[k].address, time, callbacks);
        Grown(valid, if stays then [batch[k].address] else [], StillValid(Value(), rest[1..], time, callbacks));
        valid := valid + if stays then [batch[k].address] else [];
      }
      EndOfBatch(Value(), time, callbacks);
      assert batch[|batch|..] == [] && valid + [] == valid;
    }

    method ExpireTimer(a: Address, time: int, callbacks: Callbacks) returns (stays: bool)
      requires Consistent(Value()) && InFlight(Value(), a)
      modifies this, timerContainer
      ensures timerContainer.Valid() && IsSorted(old(timerContainer.timers))
      ensures Value() == TimerExpired(old(Value()), a, time, callbacks)
      ensures stays == StaysValid(old(Value()), a, time)
    {
      hide TimerRun;
      stays := ExpireUntil(a, time, ScriptOf(callbacks, a));
      if !stays { DeleteTimer(a); }
    }

    /** `expire_until`: a run of the callback, then the timer moves on, until it has ended or is due later. */
    method ExpireUntil(a: Address, time: int, script: Script) returns (valid: bool)
      requires Consistent(Value()) && InFlight(Value(), a)
      modifies this, timerContainer
      ensures timerContainer.Valid() && IsSorted(old(timerContainer.timers))
      ensures Value() == TimerRun(old(Value()), a, TimerAt(old(Value()), a), time, script)
      ensures valid == StaysValid(old(Value()), a, time)
    {
      hide ActAll;
      ghost var start := Value();
      var rest := script;
      while true
        invariant Consistent(Value()) && InFlight(Value(), a)
        invariant TimerRun(Value(), a, heap[a], time, rest) == TimerRun(start, a, start.heap[a], time, script)
        invariant ExpiredUntil(heap[a], time).valid == ExpiredUntil(start.heap[a], time).valid
        decreases time - heap[a].expiration
      {
        RunOfTimer(Value(), a, time, rest);
        valid := ExpireOnce(a, FirstOf(rest));
        if !valid || heap[a].expiration > time { break; }
        rest := RestOf(rest);
      }
    }

    /** `expire_once`, in which the timer is looked at again after the callback. */
    method ExpireOnce(a: Address, actions: seq<Action>) returns (valid: bool)
      requires Consistent(Value()) && InFlight(Value(), a)
      modifies this, timerContainer
      ensures Consistent(Value()) && InFlight(Value(), a) && IsSorted(old(timerContainer.timers))
      ensures
        var once := ExpiredOnce(old(heap)[a]);
        valid == once.valid && Value() == Ran(ActAll(old(Value()), actions), a, once.timer)
    {
      hide ActAll;
      ActAllKeepsConsistent(Value(), actions);
      ActAllKeepsInFlight(Value(), actions, a);
      RunCallback(actions);
      var once := ExpiredOnce(heap[a]);
      ledger := ledger[a := AccountAt(Value(), a).(runs := AccountAt(Value(), a).runs + 1)];
      heap := heap[a := once.timer];
      valid := once.valid;
    }

    method InsertAll(timers: seq<Address>)
      requires timerContainer.Valid() && forall k :: 0 <= k < |timers| ==> timers[k] in heap
      modifies timerContainer
      ensures timerContainer.Valid() && Value() == PutBack(old(Value()), timers)
    {
      for k := 0 to |timers|
        invariant timerContainer.Valid()
        invariant PutBack(Value(), timers[k..]) == PutBack(old(Value()), timers)
      {
        ghost var rest, e, before := timers[k..], EntryOf(Value(), timers[k]), timerContainer.timers;
        assert rest[0] == timers[k] && rest[1..] == timers[k + 1..];
        timerContainer.InsertOne(Entry(heap[timers[k]].expiration, timers[k]));
        SortedIsUnique(timerContainer.timers, Inserted(before, e));
      }
    }
  }
}
