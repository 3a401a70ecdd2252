/**
 How often the event loop runs each timer's callback, over whole runs: the
 history that `EventLoopTimers` keeps of each timer agrees with what is due by the
 clock of its expiries.
 */
module TimerLedger {
  import opened Timer
  import opened TimerContainer
  import opened EventLoopTimers
  import opened Wrappers

  /** The runs so far and those still due make up what was due of the timer as it was made, at any later time. */
  ghost predicate IsBooked(account: Account, t: ValidTimer) {
    forall time :: account.seen <= time ==>
      account.runs + DueWithinLimit(t, time) == DueWithinLimit(account.born, time)
  }

  /** The callback has run exactly as often as was due at the latest expiry the timer waited for. */
  predicate IsSettled(account: Account) {
    account.runs == DueWithinLimit(account.born, account.seen)
  }

  /** Every account is in order, except that of a timer in the middle of its expiry (-1 if there is none). */
  ghost predicate LedgerInv(s: Loop, running: int) {
    && (forall a :: a in s.heap ==> a in s.ledger)
    && (forall a :: a in s.heap && a != running ==> IsBooked(s.ledger[a], s.heap[a]))
    && (forall e :: e in s.container ==> AccountAt(s, e.address).seen < e.time)
    && (forall k :: 0 <= k < |s.closed| ==> IsSettled(s.closed[k]))
  }

  ghost predicate IsOut(s: Loop, running: int) {
    running >= 0 ==> InFlight(s, running)
  }

  lemma WaitingIsSettled(account: Account, t: ValidTimer)
    requires IsBooked(account, t) && account.seen < t.expiration
    ensures IsSettled(account)
  {
    assert DueWithinLimit(t, account.seen) == 0;
  }

  lemma NewIsBooked(t: ValidTimer)
    ensures IsBooked(Account(t, t.expiration - 1, 0), t)
  {
  }

  lemma ActKeepsLedger(s: Loop, action: Action, running: int)
    requires Consistent(s) && LedgerInv(s, running) && IsOut(s, running)
    ensures LedgerInv(Act(s, action), running)
  {
    hide Added, Cancelled, IsBooked, IsSettled;
    match action
    case Tick(now) =>
    case Fire =>
    case Add(a, t) => if a != 0 && a !in s.heap { AddKeepsLedger(s, a, t, running); }
    case Cancel(a) => if a in s.heap { CancelKeepsLedger(s, a, running); }
  }

  lemma AddKeepsLedger(s: Loop, a: Address, t: ValidTimer, running: int)
    requires Consistent(s) && LedgerInv(s, running) && a !in s.heap
    ensures LedgerInv(Added(Created(s, a, t), a), running)
  {
    hide Added, Created, IsBooked, IsSettled;
    AddKeepsRest(s, a, t);
    NewIsBooked(t);
  }

  lemma CancelKeepsLedger(s: Loop, a: Address, running: int)
    requires Consistent(s) && LedgerInv(s, running) && IsOut(s, running) && a in s.heap
    ensures LedgerInv(Cancelled(s, a), running)
  {
    hide Cancelled, IsBooked, IsSettled;
    CancelKeepsRest(s, a);
    if EntryOf(s, a) in s.container { WaitingIsSettled(s.ledger[a], s.heap[a]); }
  }

  lemma {:induction false} ActAllKeepsLedger(s: Loop, actions: seq<Action>, running: int)
    requires Consistent(s) && LedgerInv(s, running) && IsOut(s, running)
    ensures LedgerInv(ActAll(s, actions), running)
    decreases |actions|
  {
    hide Act, LedgerInv;
    if actions != [] {
      ActKeepsConsistent(s, actions[0]);
      if running >= 0 { ActKeepsInFlight(s, actions[0], running); }
      ActKeepsLedger(s, actions[0], running);
      ActAllKeepsLedger(Act(s, actions[0]), actions[1..], running);
    }
  }

  lemma {:induction false} TimerRunKeepsLedger(s: Loop, a: Address, t: ValidTimer, time: int, script: Script)
    requires Consistent(s) && LedgerInv(s, a) && InFlight(s, a)
    ensures LedgerInv(TimerRun(s, a, t, time, script), a)
    decreases time - t.expiration
  {
    hide ActAll, IsBooked, IsSettled;
    ActAllKeepsConsistent(s, FirstOf(script));
    ActAllKeepsInFlight(s, FirstOf(script), a);
    ActAllKeepsLedger(s, FirstOf(script), a);
    var once := ExpiredOnce(t);
    var s1 := Ran(ActAll(s, FirstOf(script)), a, once.timer);
    if once.valid && once.timer.expiration <= time { TimerRunKeepsLedger(s1, a, once.timer, time, RestOf(script)); }
  }

  /** A timer that expires at the time it was last seen at is booked again, or settled for good. */
  lemma ExpiryIsBooked(account: Account, t: ValidTimer, time: int)
    requires IsBooked(account, t) && t.expiration <= time == account.seen
    ensures
      var o := ExpiredUntil(t, time);
      var after := account.(runs := account.runs + o.runs);
      if o.valid then IsBooked(after, o.timer) else IsSettled(after)
  {
    hide ExpiredUntil, DueWithinLimit;
    forall later | time <= later
      ensures
        var o := ExpiredUntil(t, time);
        DueWithinLimit(t, later) == o.runs + if o.valid then DueWithinLimit(o.timer, later) else 0
    {
      ExpiringEarlierIsNoLoss(t, time, later);
    }
  }

  lemma TimerExpiredKeepsLedger(s: Loop, a: Address, time: int, callbacks: Callbacks)
    requires Consistent(s) && LedgerInv(s, -1) && InFlight(s, a)
    requires s.heap[a].expiration <= time == AccountAt(s, a).seen
    ensures
      var r := TimerExpired(s, a, time, callbacks);
      LedgerInv(r, -1) && (StaysValid(s, a, time) ==> AccountAt(r, a).seen == time)
  {
    hide TimerRun, ExpiredUntil, IsBooked, IsSettled;
    var script := ScriptOf(callbacks, a);
    TimerRunOutcome(s, a, s.heap[a], time, script);
    TimerRunKeepsLedger(s, a, s.heap[a], time, script);
    ExpiryIsBooked(s.ledger[a], s.heap[a], time);
  }

  /** The timers of a batch have all been seen at the time of the expiry. */
  ghost predicate IsDueBatch(s: Loop, batch: seq<Entry>, time: int) {
    IsBatch(s, batch) &&
    forall k :: 0 <= k < |batch| ==> batch[k].time <= time == AccountAt(s, batch[k].address).seen
  }

  lemma RestIsDue(s: Loop, batch: seq<Entry>, time: int, callbacks: Callbacks)
    requires Consistent(s) && batch != [] && IsDueBatch(s, batch, time)
    ensures IsDueBatch(TimerExpired(s, batch[0].address, time, callbacks), batch[1..], time)
  {
    hide TimerExpired;
    BatchHeadExpires(s, batch, time, callbacks);
    var r, rest := TimerExpired(s, batch[0].address, time, callbacks), batch[1..];
    forall k | 0 <= k < |rest| ensures rest[k].time <= time == AccountAt(r, rest[k].address).seen {
      assert rest[k] == batch[k + 1];
      TimerExpiredKeepsOthers(s, batch[0].address, time, callbacks, batch[k + 1].address);
    }
  }

  lemma {:induction false} BatchKeepsLedger(s: Loop, batch: seq<Entry>, time: int, callbacks: Callbacks)
    requires Consistent(s) && LedgerInv(s, -1) && IsDueBatch(s, batch, time)
    ensures LedgerInv(BatchExpired(s, batch, time, callbacks), -1)
    ensures forall a :: a in StillValid(s, batch, time, callbacks) ==>
      AccountAt(BatchExpired(s, batch, time, callbacks), a).seen == time
    decreases |batch|
  {
    hide TimerExpired, StaysValid, LedgerInv;
    if batch != [] {
      var a := batch[0].address;
      var s1, rest := TimerExpired(s, a, time, callbacks), batch[1..];
      TimerExpiredKeepsLedger(s, a, time, callbacks);
      BatchHeadExpires(s, batch, time, callbacks);
      RestIsDue(s, batch, time, callbacks);
      BatchKeepsLedger(s1, rest, time, callbacks);
      TimerExpiredOutcome(s, a, time, callbacks);
      if StaysValid(s, a, time) { BatchKeepsOthers(s1, rest, time, callbacks, a); }
      FirstOfBatch(s, batch, time, callbacks);
    }
  }

  lemma SeenLaterIsBooked(account: Account, t: ValidTimer, seen: int)
    requires IsBooked(account, t) && account.seen <= seen
    ensures IsBooked(account.(seen := seen), t)
  {
  }

  lemma HeldIsSeen(s: Loop, time: int, e: Entry)
    requires Consistent(s) && LedgerInv(s, -1) && e in s.container
    ensures e.address in s.ledger && Seen(s, time)[e.address].seen == Max(s.ledger[e.address].seen, time)
    ensures s.ledger[e.address].seen < e.time
  {
    hide IsBooked, IsSettled;
    var k :| 0 <= k < |s.container| && s.container[k] == e;
    assert IsHeld(s, e.address) by { assert s.container[k].address == e.address; }
  }

  lemma MovedOutIsDue(s: Loop, time: int)
    requires Consistent(s) && LedgerInv(s, -1)
    ensures LedgerInv(MovedOut(s, time), -1)
    ensures IsDueBatch(MovedOut(s, time), s.container[..DueCount(s.container, time)], time)
  {
    assert IsSorted(s.container);
    hide MovedOut, IsBatch, IsSettled, IsBooked, Consistent;
    var n := DueCount(s.container, time);
    var s1, batch, rest := MovedOut(s, time), s.container[..n], s.container[n..];
    MoveOutKeepsRest(s, time);
    MovedOutIsBatch(s, time);
    forall a | a in s1.heap ensures a in s1.ledger && IsBooked(s1.ledger[a], s1.heap[a]) {
      SeenLaterIsBooked(s.ledger[a], s.heap[a], s1.ledger[a].seen);
    }
    hide IsHeld;
    forall e | e in rest ensures AccountAt(s1, e.address).seen < e.time {
      DueAreTakenInOrder(s.container, time, e);
      HeldIsSeen(s, time, e);
    }
    forall k | 0 <= k < n ensures batch[k].time <= time == AccountAt(s1, batch[k].address).seen {
      assert batch[k] in s.container;
      HeldIsSeen(s, time, batch[k]);
    }
  }

  lemma ExpiryKeepsLedger(s: Loop, time: int, callbacks: Callbacks)
    requires Consistent(s) && LedgerInv(s, -1)
    ensures LedgerInv(Expired(s, time, callbacks), -1)
  {
    hide MovedOut, BatchExpired, StillValid, Expired, PutBack, IsBooked, IsSettled;
    ExpiryInParts(s, time, callbacks);
    MovedOutIsDue(s, time);
    BatchKeepsLedger(MovedOut(s, time), s.container[..DueCount(s.container, time)], time, callbacks);
  }

  lemma StepKeepsLedger(s: Loop, event: Event)
    requires Consistent(s) && LedgerInv(s, -1)
    ensures LedgerInv(Step(s, event), -1)
  {
    hide Act, Expired, IsBooked, IsSettled;
    match event
    case Acted(action) => ActKeepsLedger(s, action, -1);
    case Poll(_) =>
    case ReadTimerfd =>
    case Expire(time, callbacks) => ExpiryKeepsLedger(s, time, callbacks);
    case CheckTimerfd(callbacks) => if s.triggered { ExpiryKeepsLedger(s, s.now, callbacks); }
  }

  lemma {:induction false} RunKeepsLedger(s: Loop, events: seq<Event>)
    requires Consistent(s) && LedgerInv(s, -1)
    ensures LedgerInv(After(s, events), -1)
    decreases |events|
  {
    hide Step, LedgerInv;
    if events != [] {
      StepKeepsConsistent(s, events[0]);
      StepKeepsLedger(s, events[0]);
      RunKeepsLedger(Step(s, events[0]), events[1..]);
    }
  }

  lemma ReachableLedger(s: Loop)
    requires Reachable(s)
    ensures Consistent(s) && LedgerInv(s, -1)
  {
    hide Act, LedgerInv;
    var now, threshold: nat, yell, events :| IsRun(now, threshold, yell, events, s);
    var s0 := EmptyLoop(now, threshold);
    assert LedgerInv(s0, -1) by { NothingBooked(now, threshold); }
    ActKeepsConsistent(s0, Add(yell, YellTimer(now)));
    ActKeepsLedger(s0, Add(yell, YellTimer(now)), -1);
    RunKeepsLedger(NewLoop(now, threshold, yell), events);
    ReachableInv(s);
  }

  lemma NothingBooked(now: int, threshold: int)
    ensures LedgerInv(EmptyLoop(now, threshold), -1)
  {
  }

  /**
   Over any run, with whatever expiries, callbacks and cancellations: the callback
   of a waiting timer has run exactly as often as was due, within its repetitions, at
   the latest expiry the timer waited for, and the timer is due later than that.
   */
  lemma WaitingTimersRanAsDue(s: Loop, e: Entry)
    requires Reachable(s) && e in s.container
    ensures
      var account := AccountAt(s, e.address);
      account.runs == DueWithinLimit(account.born, account.seen) && account.seen < e.time
  {
    ReachableLedger(s);
    WaitingIsSettled(s.ledger[e.address], s.heap[e.address]);
  }

  /** The same of every timer that has been deleted, because it had ended or was cancelled. */
  lemma DeletedTimersRanAsDue(s: Loop, k: nat)
    requires Reachable(s) && k < |s.closed|
    ensures s.closed[k].runs == DueWithinLimit(s.closed[k].born, s.closed[k].seen)
  {
    ReachableLedger(s);
  }
}
