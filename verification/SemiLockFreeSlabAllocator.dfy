/**
 The multi-threaded slab allocator built on one compare-and-swap stack whose
 head carries a tag (`SemiLockFreeSlabAllocator` and its static twin).

 The allocator is a state machine.  One action of one thread is one atomic
 load, store, compare-and-swap or mutex-protected region of the source, and
 any number of threads interleave freely.  A slab is its address; a chunk is
 `n` consecutive addresses.  While a thread owns a slab it may overwrite the
 slab's memory, the link word included, at any moment.
 */
module SemiLockFreeSlabAllocator {
  import opened LinkedMemory

  datatype Head = Head(node: Ptr, tag: nat)

  /** Where a thread is inside `allocate` or `deallocate`; `seen` is its `old_head`. */
  datatype Pc =
    | Idle
    | PopLoaded(seen: Head)                  // about to test and dereference old_head
    | PopRead(seen: Head, next: Ptr)         // about to compare-and-swap the pop
    | Carving(base: nat, i: nat)            // linking the private chunk, next slab is i
    | CarveLoaded(base: nat, seen: Head)     // about to store the chunk tail's link
    | CarveLinked(base: nat, seen: Head)     // about to compare-and-swap the chunk in
    | PushLoaded(slab: int, seen: Head)      // about to store the slab's link
    | PushLinked(slab: int, seen: Head)      // about to compare-and-swap the push

  datatype Thread = Thread(pc: Pc, owned: set<int>)

  datatype State = State(n: nat, head: Head, next: Memory, threads: seq<Thread>)

  datatype Action =
    | LoadForPop
    | ReadNext
    | AllocateChunk(garbage: seq<Ptr>)      // fresh memory holds arbitrary bits
    | CasPop(spurious: bool)                // a weak compare-and-swap may fail for no reason
    | LinkNext
    | LoadForCarve
    | StoreTail
    | CasCarve(spurious: bool)
    | BeginPush(slab: int)
    | StoreNext
    | CasPush(spurious: bool)
    | Scribble(slab: int, bits: Ptr)        // an owner writes into its slab
    | HandOver(slab: int, to: nat)          // an owner passes its slab to another thread

  datatype Event = Event(thread: nat, action: Action)

  predicate Enabled(s: State, e: Event) {
    e.thread < |s.threads| &&
    var th := s.threads[e.thread];
    match e.action
    case LoadForPop => th.pc.Idle?
    case ReadNext => th.pc.PopLoaded? && th.pc.seen.node.At?
    case AllocateChunk(garbage) => th.pc.PopLoaded? && th.pc.seen.node.Null? && |garbage| == s.n
    case CasPop(_) => th.pc.PopRead?
    case LinkNext => th.pc.Carving? && th.pc.i + 1 < s.n
    case LoadForCarve => th.pc.Carving? && th.pc.i + 1 >= s.n
    case StoreTail => th.pc.CarveLoaded?
    case CasCarve(_) => th.pc.CarveLinked?
    case BeginPush(slab) => th.pc.Idle? && slab in th.owned
    case StoreNext => th.pc.PushLoaded?
    case CasPush(_) => th.pc.PushLinked?
    case Scribble(slab, _) => slab in th.owned
    case HandOver(slab, to) => slab in th.owned && to < |s.threads| && to != e.thread
  }

  /** The addresses an action dereferences. */
  function Touched(s: State, e: Event): set<int>
    requires Enabled(s, e)
  {
    var pc := s.threads[e.thread].pc;
    match e.action
    case ReadNext => {pc.seen.node.slab}
    case LinkNext => {pc.base + pc.i}
    case StoreTail => {pc.base}
    case StoreNext => {pc.slab}
    case Scribble(slab, _) => {slab}
    case _ => {}
  }

  function SetPc(s: State, t: nat, pc: Pc): State
    requires t < |s.threads|
  {
    s.(threads := s.threads[t := s.threads[t].(pc := pc)])
  }

  /** The thread leaves the allocator owning one more slab. */
  function Return(s: State, t: nat, slab: int): State
    requires t < |s.threads|
  {
    s.(threads := s.threads[t := Thread(Idle, s.threads[t].owned + {slab})])
  }

  predicate Succeeds(s: State, seen: Head, spurious: bool) {
    !spurious && s.head == seen
  }

  function Apply(s: State, e: Event): State
    requires Enabled(s, e)
  {
    var t := e.thread;
    var th := s.threads[t];
    match e.action
    case LoadForPop => SetPc(s, t, PopLoaded(s.head))
    case ReadNext =>
      SetPc(s, t, PopRead(th.pc.seen, Load(s.next, th.pc.seen.node.slab)))
    case AllocateChunk(garbage) =>
      var base := |s.next|;
      var grown := s.(next := s.next + garbage);
      if s.n == 1 then Return(grown, t, base) else SetPc(grown, t, Carving(base, 1))
    case CasPop(spurious) =>
      if Succeeds(s, th.pc.seen, spurious) && th.pc.seen.node.At? then
        Return(s.(head := Head(th.pc.next, th.pc.seen.tag + 1)), t, th.pc.seen.node.slab)
      else
        SetPc(s, t, PopLoaded(s.head))
    case LinkNext =>
      var a := th.pc.base + th.pc.i;
      SetPc(s.(next := Store(s.next, a, At(a - 1))), t, Carving(th.pc.base, th.pc.i + 1))
    case LoadForCarve => SetPc(s, t, CarveLoaded(th.pc.base, s.head))
    case StoreTail =>
      SetPc(s.(next := Store(s.next, th.pc.base, th.pc.seen.node)), t, CarveLinked(th.pc.base, th.pc.seen))
    case CasCarve(spurious) =>
      if Succeeds(s, th.pc.seen, spurious) then
        Return(s.(head := Head(At(th.pc.base + s.n - 2), th.pc.seen.tag + 1)), t, th.pc.base + s.n - 1)
      else
        SetPc(s, t, CarveLoaded(th.pc.base, s.head))
    case BeginPush(slab) =>
      s.(threads := s.threads[t := Thread(PushLoaded(slab, s.head), th.owned - {slab})])
    case StoreNext =>
      SetPc(s.(next := Store(s.next, th.pc.slab, th.pc.seen.node)), t, PushLinked(th.pc.slab, th.pc.seen))
    case CasPush(spurious) =>
      if Succeeds(s, th.pc.seen, spurious) then
        SetPc(s.(head := Head(At(th.pc.slab), th.pc.seen.tag + 1)), t, Idle)
      else
        SetPc(s, t, PushLoaded(th.pc.slab, s.head))
    case Scribble(slab, bits) => s.(next := Store(s.next, slab, bits))
    case HandOver(slab, to) =>
      s.(threads := s.threads[t := th.(owned := th.owned - {slab})]
                             [to := s.threads[to].(owned := s.threads[to].owned + {slab})])
  }

  predicate Runs(s: State, events: seq<Event>, s': State)
    decreases |events|
  {
    if events == [] then s == s'
    else Enabled(s, events[0]) && Runs(Apply(s, events[0]), events[1..], s')
  }

  function Initial(n: nat, threads: nat): State {
    State(n, Head(Null, 0), [], seq(threads, _ => Thread(Idle, {})))
  }

  ghost predicate Reachable(s: State) {
    exists threads, events :: s.n >= 1 && Runs(Initial(s.n, threads), events, s)
  }

  // ---------------------------------------------------------------- invariant

  /** Slabs inside an unpublished push or chunk carve. */
  predicate InFlight(n: nat, pc: Pc, a: int) {
    match pc
    case Carving(base, _) => base <= a < base + n
    case CarveLoaded(base, _) => base <= a < base + n
    case CarveLinked(base, _) => base <= a < base + n
    case PushLoaded(slab, _) => a == slab
    case PushLinked(slab, _) => a == slab
    case _ => false
  }

  predicate Holds(s: State, t: int, a: int) {
    0 <= t < |s.threads| && (a in s.threads[t].owned || InFlight(s.n, s.threads[t].pc, a))
  }

  /** No slab has two places. */
  ghost predicate Separate(s: State, free: seq<int>) {
    && Distinct(free)
    && (forall t, a :: Holds(s, t, a) ==> InMemory(s.next, a) && a !in free)
    && (forall t, a :: 0 <= t < |s.threads| && a in s.threads[t].owned ==> !InFlight(s.n, s.threads[t].pc, a))
    && (forall t, u, a :: Holds(s, t, a) && Holds(s, u, a) ==> t == u)
  }

  /** Every slab has a place. */
  ghost predicate Covered(s: State, free: seq<int>) {
    forall a :: InMemory(s.next, a) ==> a in free || exists t :: Holds(s, t, a)
  }

  /** What a snapshot of the head is still worth, however stale it is. */
  predicate SnapshotOk(s: State, seen: Head) {
    && seen.tag <= s.head.tag
    && (seen.tag == s.head.tag ==> seen.node == s.head.node)
    && (seen.node.At? ==> InMemory(s.next, seen.node.slab))
  }

  /** The private chunk links slab base + k to base + k - 1, for the first `i` slabs. */
  predicate Linked(next: Memory, base: nat, i: nat) {
    base + i <= |next| && forall a :: base < a < base + i ==> next[a] == At(a - 1)
  }

  predicate PcOk(s: State, pc: Pc) {
    match pc
    case Idle => true
    case PopLoaded(seen) => SnapshotOk(s, seen)
    case PopRead(seen, next) =>
      && SnapshotOk(s, seen) && seen.node.At?
      && (seen.tag == s.head.tag ==> next == s.next[seen.node.slab])
    case Carving(base, i) => 1 <= i < s.n && Linked(s.next, base, i)
    case CarveLoaded(base, seen) => 2 <= s.n && SnapshotOk(s, seen) && Linked(s.next, base, s.n - 1)
    case CarveLinked(base, seen) =>
      2 <= s.n && SnapshotOk(s, seen) && Linked(s.next, base, s.n - 1) && s.next[base] == seen.node
    case PushLoaded(slab, seen) => SnapshotOk(s, seen)
    case PushLinked(slab, seen) => SnapshotOk(s, seen) && Load(s.next, slab) == seen.node
  }

  ghost predicate PcsOk(s: State) {
    forall t :: 0 <= t < |s.threads| ==> PcOk(s, s.threads[t].pc)
  }

  ghost predicate Inv(s: State, free: seq<int>) {
    s.n >= 1 && IsChain(s.next, s.head.node, free) && Separate(s, free) && Covered(s, free) && PcsOk(s)
  }

  /** The chunk's published part, head first: every slab but the preserved one. */
  function CarvedList(base: nat, n: nat): seq<int>
    requires n >= 1
  {
    seq(n - 1, k requires 0 <= k < n - 1 => base + n - 2 - k)
  }

  /** The free list after an action. */
  function NextFree(s: State, e: Event, free: seq<int>): seq<int>
    requires Enabled(s, e) && s.n >= 1
  {
    var pc := s.threads[e.thread].pc;
    match e.action
    case CasPop(spurious) => if Succeeds(s, pc.seen, spurious) && |free| > 0 then free[1..] else free
    case CasCarve(spurious) => if Succeeds(s, pc.seen, spurious) then CarvedList(pc.base, s.n) + free else free
    case CasPush(spurious) => if Succeeds(s, pc.seen, spurious) then [pc.slab] + free else free
    case _ => free
  }

  lemma InvInitial(n: nat, threads: nat)
    requires n >= 1
    ensures Inv(Initial(n, threads), [])
  {
  }

  // ------------------------------------------------- where slabs are afterwards

  /** Whether thread `u` holds slab `a` after the action, in terms of the state before. */
  predicate HoldsNext(s: State, e: Event, u: int, a: int)
    requires Enabled(s, e)
  {
    var t := e.thread;
    var pc := s.threads[t].pc;
    match e.action
    case AllocateChunk(_) => Holds(s, u, a) || (u == t && |s.next| <= a < |s.next| + s.n)
    case CasPop(spurious) =>
      Holds(s, u, a) || (u == t && Succeeds(s, pc.seen, spurious) && pc.seen.node == At(a))
    case CasCarve(spurious) =>
      Holds(s, u, a) && !(u == t && Succeeds(s, pc.seen, spurious) && pc.base <= a < pc.base + s.n - 1)
    case CasPush(spurious) =>
      Holds(s, u, a) && !(u == t && Succeeds(s, pc.seen, spurious) && pc.slab == a)
    case HandOver(slab, to) => if a == slab then u == to else Holds(s, u, a)
    case _ => Holds(s, u, a)
  }

  lemma HolderAfter(s: State, e: Event, u: int, a: int)
    requires Enabled(s, e) && s.n >= 1 && PcOk(s, s.threads[e.thread].pc)
    requires forall b :: b in s.threads[e.thread].owned ==> !InFlight(s.n, s.threads[e.thread].pc, b)
    requires e.action.HandOver? ==> forall w :: Holds(s, w, e.action.slab) ==> w == e.thread
    ensures Holds(Apply(s, e), u, a) <==> HoldsNext(s, e, u, a)
  {
    match e.action
    case HandOver(slab, to) => assert Holds(s, u, slab) ==> u == e.thread;
    case _ =>
  }

  lemma HoldsAfter(s: State, e: Event, free: seq<int>)
    requires Inv(s, free) && Enabled(s, e)
    ensures forall u, a :: Holds(Apply(s, e), u, a) <==> HoldsNext(s, e, u, a)
  {
    assert e.action.HandOver? ==> Holds(s, e.thread, e.action.slab);
    forall u, a ensures Holds(Apply(s, e), u, a) <==> HoldsNext(s, e, u, a) {
      HolderAfter(s, e, u, a);
    }
  }

  lemma CarvedListMembers(base: nat, n: nat)
    requires n >= 1
    ensures forall a :: a in CarvedList(base, n) <==> base <= a < base + n - 1
    ensures Distinct(CarvedList(base, n))
  {
    var list := CarvedList(base, n);
    forall a | base <= a < base + n - 1 ensures a in list {
      assert list[base + n - 2 - a] == a;
    }
  }

  /** Which slabs are on the free list after the action. */
  lemma FreeAfter(s: State, e: Event, free: seq<int>, a: int)
    requires Inv(s, free) && Enabled(s, e)
    ensures a in NextFree(s, e, free) <==>
      var pc := s.threads[e.thread].pc;
      match e.action
      case CasPop(spurious) => a in free && !(Succeeds(s, pc.seen, spurious) && pc.seen.node == At(a))
      case CasCarve(spurious) => a in free || (Succeeds(s, pc.seen, spurious) && pc.base <= a < pc.base + s.n - 1)
      case CasPush(spurious) => a in free || (Succeeds(s, pc.seen, spurious) && a == pc.slab)
      case _ => a in free
  {
    var pc := s.threads[e.thread].pc;
    assert PcOk(s, pc);
    match e.action
    case CasPop(spurious) =>
      if Succeeds(s, pc.seen, spurious) {
        assert free == [free[0]] + free[1..];
      }
    case CasCarve(spurious) => CarvedListMembers(pc.base, s.n);
    case _ =>
  }

  lemma DistinctStep(s: State, e: Event, free: seq<int>)
    requires Inv(s, free) && Enabled(s, e)
    ensures Distinct(NextFree(s, e, free))
  {
    var pc := s.threads[e.thread].pc;
    match e.action
    case CasCarve(spurious) =>
      CarvedListMembers(pc.base, s.n);
      assert forall k :: 0 <= k < s.n - 1 ==> Holds(s, e.thread, CarvedList(pc.base, s.n)[k]);
    case CasPush(spurious) => assert Holds(s, e.thread, pc.slab);
    case _ =>
  }

  lemma HeldNotFreeStep(s: State, e: Event, free: seq<int>, u: int, a: int)
    requires Inv(s, free) && Enabled(s, e) && HoldsNext(s, e, u, a)
    ensures InMemory(Apply(s, e).next, a) && a !in NextFree(s, e, free)
  {
    var pc := s.threads[e.thread].pc;
    FreeAfter(s, e, free, a);
    assert PcOk(s, pc);
    match e.action
    case AllocateChunk(_) => assert Holds(s, u, a) ==> InMemory(s.next, a);
    case CasPop(_) => assert Holds(s, u, a) ==> InMemory(s.next, a);
    case CasPush(_) => assert Holds(s, e.thread, pc.slab);
    case CasCarve(_) => assert pc.base <= a < pc.base + s.n - 1 ==> Holds(s, e.thread, a);
    case HandOver(slab, _) => assert Holds(s, e.thread, slab);
    case _ =>
  }

  lemma OwnedNotInFlightStep(s: State, e: Event, free: seq<int>, u: int, a: int)
    requires Inv(s, free) && Enabled(s, e)
    requires 0 <= u < |s.threads| && a in Apply(s, e).threads[u].owned
    ensures !InFlight(s.n, Apply(s, e).threads[u].pc, a)
  {
    var pc := s.threads[e.thread].pc;
    assert PcOk(s, pc);
    assert Holds(s, u, a) ==> InMemory(s.next, a);
    match e.action
    case HandOver(slab, _) => assert Holds(s, e.thread, slab);
    case _ =>
  }

  lemma OneHolderStep(s: State, e: Event, free: seq<int>, u: int, w: int, a: int)
    requires Inv(s, free) && Enabled(s, e) && HoldsNext(s, e, u, a) && HoldsNext(s, e, w, a)
    ensures u == w
  {
    var t := e.thread;
    assert PcOk(s, s.threads[t].pc);
    assert Holds(s, u, a) ==> InMemory(s.next, a) && a !in free;
    assert Holds(s, w, a) ==> InMemory(s.next, a) && a !in free;
    match e.action
    case HandOver(slab, _) => assert Holds(s, t, slab);
    case _ =>
  }

  lemma SeparateStep(s: State, e: Event, free: seq<int>)
    requires Inv(s, free) && Enabled(s, e)
    ensures Separate(Apply(s, e), NextFree(s, e, free))
  {
    var s', free' := Apply(s, e), NextFree(s, e, free);
    HoldsAfter(s, e, free);
    DistinctStep(s, e, free);
    forall u, a | Holds(s', u, a) ensures InMemory(s'.next, a) && a !in free' {
      HeldNotFreeStep(s, e, free, u, a);
    }
    forall u, a | 0 <= u < |s'.threads| && a in s'.threads[u].owned ensures !InFlight(s'.n, s'.threads[u].pc, a) {
      OwnedNotInFlightStep(s, e, free, u, a);
    }
    forall u, w, a | Holds(s', u, a) && Holds(s', w, a) ensures u == w {
      OneHolderStep(s, e, free, u, w, a);
    }
  }

  lemma CoveredStep(s: State, e: Event, free: seq<int>)
    requires Inv(s, free) && Enabled(s, e)
    ensures Covered(Apply(s, e), NextFree(s, e, free))
  {
    HoldsAfter(s, e, free);
    forall a | InMemory(Apply(s, e).next, a) && a !in NextFree(s, e, free)
      ensures exists u :: HoldsNext(s, e, u, a)
    {
      FreeAfter(s, e, free, a);
      if a in free || !InMemory(s.next, a) {
        assert HoldsNext(s, e, e.thread, a);
      } else {
        var u :| Holds(s, u, a);
        if e.action.HandOver? && a == e.action.slab {
          assert HoldsNext(s, e, e.action.to, a);
        } else {
          assert HoldsNext(s, e, u, a);
        }
      }
    }
  }

  // ------------------------------------------------------ links and snapshots

  /** The one slab whose link an action may overwrite. */
  predicate Writes(s: State, e: Event, a: int)
    requires Enabled(s, e)
  {
    (e.action.LinkNext? || e.action.StoreTail? || e.action.StoreNext? || e.action.Scribble?) && a in Touched(s, e)
  }

  /** Only a slab the acting thread holds is ever written, and never one in flight elsewhere. */
  lemma WritesAreExclusive(s: State, e: Event, free: seq<int>, a: int)
    requires Inv(s, free) && Enabled(s, e) && Writes(s, e, a)
    ensures Holds(s, e.thread, a) && a !in free
    ensures forall u :: 0 <= u < |s.threads| && (u != e.thread || e.action.Scribble?) ==>
      !InFlight(s.n, s.threads[u].pc, a)
  {
    assert PcOk(s, s.threads[e.thread].pc);
    assert Holds(s, e.thread, a);
    forall u | 0 <= u < |s.threads| && u != e.thread ensures !InFlight(s.n, s.threads[u].pc, a) {
      assert InFlight(s.n, s.threads[u].pc, a) ==> Holds(s, u, a);
    }
  }

  /** Links outside the written slab are untouched and memory never shrinks. */
  lemma LinksAfter(s: State, e: Event, a: int)
    requires Enabled(s, e) && InMemory(s.next, a) && !Writes(s, e, a)
    ensures InMemory(Apply(s, e).next, a) && Apply(s, e).next[a] == s.next[a]
  {
  }

  /** No action disturbs the links of the list that was free before it. */
  lemma FreeLinksAfter(s: State, e: Event, free: seq<int>)
    requires Inv(s, free) && Enabled(s, e)
    ensures IsChain(Apply(s, e).next, s.head.node, free)
  {
    var s' := Apply(s, e);
    forall k | 0 <= k < |free|
      ensures InMemory(s'.next, free[k]) && s'.next[free[k]] == PtrAt(free, k + 1)
    {
      if Writes(s, e, free[k]) { WritesAreExclusive(s, e, free, free[k]); }
      LinksAfter(s, e, free[k]);
    }
  }

  lemma ChainOfCarve(next: Memory, base: nat, n: nat, first: Ptr, free: seq<int>)
    requires n >= 2 && IsChain(next, first, free)
    requires Linked(next, base, n - 1) && next[base] == first
    ensures IsChain(next, At(base + n - 2), CarvedList(base, n) + free)
  {
    var front := CarvedList(base, n);
    forall k | 0 <= k < |front + free|
      ensures InMemory(next, (front + free)[k]) && next[(front + free)[k]] == PtrAt(front + free, k + 1)
    {
      if k >= |front| { assert (front + free)[k] == free[k - |front|]; }
    }
  }

  lemma ChainStep(s: State, e: Event, free: seq<int>)
    requires Inv(s, free) && Enabled(s, e)
    ensures IsChain(Apply(s, e).next, Apply(s, e).head.node, NextFree(s, e, free))
  {
    FreeLinksAfter(s, e, free);
    var pc := s.threads[e.thread].pc;
    assert PcOk(s, pc);
    match e.action
    case CasCarve(_) => if pc.seen == s.head { ChainOfCarve(s.next, pc.base, s.n, pc.seen.node, free); }
    case CasPush(_) => assert Holds(s, e.thread, pc.slab);
    case _ =>
  }

  /** A thread's promises survive any change that spares its private links and the free ones. */
  lemma PcSurvives(s: State, s': State, pc: Pc, free: seq<int>)
    requires PcOk(s, pc) && IsChain(s.next, s.head.node, free)
    requires s'.n == s.n && |s.next| <= |s'.next| && (s'.head == s.head || s.head.tag < s'.head.tag)
    requires forall a :: InFlight(s.n, pc, a) ==> InMemory(s.next, a)
    requires forall a :: InMemory(s.next, a) && (InFlight(s.n, pc, a) || a in free) ==> s'.next[a] == s.next[a]
    ensures PcOk(s', pc)
  {
    match pc
    case PopRead(seen, _) => assert seen.tag == s'.head.tag ==> seen.node.slab == free[0];
    case PushLinked(slab, _) => assert InFlight(s.n, pc, slab);
    case _ =>
  }

  lemma BystanderStep(s: State, e: Event, free: seq<int>, u: nat)
    requires Inv(s, free) && Enabled(s, e) && u < |s.threads|
    requires u != e.thread || e.action.Scribble? || e.action.HandOver?
    ensures PcOk(Apply(s, e), s.threads[u].pc)
  {
    var s', pc := Apply(s, e), s.threads[u].pc;
    assert PcOk(s, s.threads[e.thread].pc);
    forall a | InMemory(s.next, a) && (InFlight(s.n, pc, a) || a in free)
      ensures InMemory(s'.next, a) && s'.next[a] == s.next[a]
    {
      if Writes(s, e, a) { WritesAreExclusive(s, e, free, a); }
      LinksAfter(s, e, a);
    }
    assert forall a :: InFlight(s.n, pc, a) ==> Holds(s, u, a);
    PcSurvives(s, s', pc, free);
  }

  lemma LinkingStep(s: State, e: Event)
    requires Enabled(s, e)
    requires e.action.LinkNext? || e.action.LoadForCarve? || e.action.StoreTail? || e.action.StoreNext?
    requires PcOk(s, s.threads[e.thread].pc)
    requires forall a :: InFlight(s.n, s.threads[e.thread].pc, a) ==> InMemory(s.next, a)
    requires s.head.node.At? ==> InMemory(s.next, s.head.node.slab)
    ensures PcOk(Apply(s, e), Apply(s, e).threads[e.thread].pc)
  {
    var pc := s.threads[e.thread].pc;
    match e.action
    case LinkNext => assert InFlight(s.n, pc, pc.base + pc.i);
    case LoadForCarve => assert InFlight(s.n, pc, pc.base + s.n - 1);
    case StoreTail => assert InFlight(s.n, pc, pc.base);
    case StoreNext => assert InFlight(s.n, pc, pc.slab);
  }

  lemma HeadStep(s: State, e: Event, free: seq<int>)
    requires Enabled(s, e) && s.n >= 1
    requires !(e.action.LinkNext? || e.action.LoadForCarve? || e.action.StoreTail? || e.action.StoreNext?)
    requires !e.action.Scribble? && !e.action.HandOver?
    requires PcOk(s, s.threads[e.thread].pc) && IsChain(s.next, s.head.node, free)
    ensures PcOk(Apply(s, e), Apply(s, e).threads[e.thread].pc)
  {
  }

  lemma ActorStep(s: State, e: Event, free: seq<int>)
    requires Inv(s, free) && Enabled(s, e) && !e.action.Scribble? && !e.action.HandOver?
    ensures PcOk(Apply(s, e), Apply(s, e).threads[e.thread].pc)
  {
    assert forall a :: InFlight(s.n, s.threads[e.thread].pc, a) ==> Holds(s, e.thread, a);
    assert s.head.node.At? ==> InMemory(s.next, free[0]);
    hide PcOk;
    if e.action.LinkNext? || e.action.LoadForCarve? || e.action.StoreTail? || e.action.StoreNext? {
      LinkingStep(s, e);
    } else {
      HeadStep(s, e, free);
    }
  }

  lemma PcsStep(s: State, e: Event, free: seq<int>)
    requires Inv(s, free) && Enabled(s, e)
    ensures PcsOk(Apply(s, e))
  {
    var s' := Apply(s, e);
    forall u | 0 <= u < |s'.threads| ensures PcOk(s', s'.threads[u].pc) {
      if u == e.thread && !e.action.Scribble? && !e.action.HandOver? {
        ActorStep(s, e, free);
      } else {
        BystanderStep(s, e, free, u);
        assert s'.threads[u].pc == s.threads[u].pc;
      }
    }
  }

  lemma InvStep(s: State, e: Event, free: seq<int>)
    requires Inv(s, free) && Enabled(s, e)
    ensures Inv(Apply(s, e), NextFree(s, e, free))
  {
    SeparateStep(s, e, free);
    CoveredStep(s, e, free);
    ChainStep(s, e, free);
    PcsStep(s, e, free);
  }

  // --------------------------------------------------------------- whole runs

  lemma {:induction false} RunInv(s: State, events: seq<Event>, s': State, free: seq<int>) returns (free': seq<int>)
    requires Inv(s, free) && Runs(s, events, s')
    ensures Inv(s', free')
    decreases |events|
  {
    if events == [] {
      free' := free;
    } else {
      InvStep(s, events[0], free);
      free' := RunInv(Apply(s, events[0]), events[1..], s', NextFree(s, events[0], free));
    }
  }

  lemma ReachableInv(s: State) returns (free: seq<int>)
    requires Reachable(s)
    ensures Inv(s, free)
  {
    var threads, events :| s.n >= 1 && Runs(Initial(s.n, threads), events, s);
    InvInitial(s.n, threads);
    free := RunInv(Initial(s.n, threads), events, s, []);
  }

  datatype Place = OnFreeList | OwnedBy(thread: nat) | InFlightOf(thread: nat)

  predicate Located(s: State, free: seq<int>, a: int, place: Place) {
    match place
    case OnFreeList => a in free
    case OwnedBy(t) => t < |s.threads| && a in s.threads[t].owned
    case InFlightOf(t) => t < |s.threads| && InFlight(s.n, s.threads[t].pc, a)
  }

  ghost predicate ExactlyOnePlace(s: State, free: seq<int>, a: int) {
    && (exists place :: Located(s, free, a, place))
    && (forall p, q :: Located(s, free, a, p) && Located(s, free, a, q) ==> p == q)
  }

  /**
   In every interleaving the free list is a null-terminated chain without
   repetitions, and every slab is in exactly one place: on that list, with one
   owner, or inside one thread's unfinished push or carve.
   */
  lemma EverySlabHasOnePlace(s: State)
    requires Reachable(s)
    ensures exists free ::
      && IsChain(s.next, s.head.node, free) && Distinct(free)
      && forall a :: InMemory(s.next, a) ==> ExactlyOnePlace(s, free, a)
  {
    var free := ReachableInv(s);
    forall a | InMemory(s.next, a) ensures ExactlyOnePlace(s, free, a) {
      if a in free {
        assert Located(s, free, a, OnFreeList);
      } else {
        var t :| Holds(s, t, a);
        assert Located(s, free, a, OwnedBy(t)) || Located(s, free, a, InFlightOf(t));
      }
      forall p, q | Located(s, free, a, p) && Located(s, free, a, q) ensures p == q {
        assert p != OnFreeList ==> Holds(s, p.thread, a);
        assert q != OnFreeList ==> Holds(s, q.thread, a);
      }
    }
  }

  /** No action ever dereferences null or an address outside the carved chunks. */
  lemma DereferencesAreSafe(s: State, e: Event, a: int)
    requires Reachable(s) && Enabled(s, e) && a in Touched(s, e)
    ensures InMemory(s.next, a)
  {
    var free := ReachableInv(s);
    var pc := s.threads[e.thread].pc;
    assert PcOk(s, pc);
    if !e.action.ReadNext? { assert Holds(s, e.thread, a); }
  }

  /** A successful pop installs the popped slab's true successor and hands out a slab nobody holds. */
  lemma PopIsExact(s: State, e: Event)
    requires Reachable(s) && Enabled(s, e) && e.action.CasPop?
    requires Succeeds(s, s.threads[e.thread].pc.seen, e.action.spurious)
    ensures s.head.node.At? && InMemory(s.next, s.head.node.slab)
    ensures Apply(s, e).head == Head(s.next[s.head.node.slab], s.head.tag + 1)
    ensures forall t :: !Holds(s, t, s.head.node.slab)
    ensures Apply(s, e).threads[e.thread] == Thread(Idle, s.threads[e.thread].owned + {s.head.node.slab})
  {
    var free := ReachableInv(s);
    assert PcOk(s, s.threads[e.thread].pc);
    assert s.head.node.slab == free[0];
  }

  /** A swap that loses for a real reason lost to another thread's success. */
  lemma LosingMeansSomeoneWon(s: State, e: Event)
    requires Reachable(s) && Enabled(s, e)
    requires e.action.CasPop? || e.action.CasCarve? || e.action.CasPush?
    ensures var seen := s.threads[e.thread].pc.seen;
      if Succeeds(s, seen, e.action.spurious) then Apply(s, e).head.tag == s.head.tag + 1
      else Apply(s, e).head == s.head && (!e.action.spurious ==> seen.tag < s.head.tag)
  {
    var free := ReachableInv(s);
    assert PcOk(s, s.threads[e.thread].pc);
  }

  lemma TagStep(s: State, e: Event, free: seq<int>)
    requires Inv(s, free) && Enabled(s, e)
    ensures s.head.tag < Apply(s, e).head.tag || (Apply(s, e).head == s.head && NextFree(s, e, free) == free)
  {
    assert PcOk(s, s.threads[e.thread].pc);
  }

  lemma {:induction false} TagFreezesRun(s: State, events: seq<Event>, s': State, free: seq<int>)
    requires Inv(s, free) && Runs(s, events, s')
    ensures s.head.tag <= s'.head.tag
    ensures s.head.tag == s'.head.tag ==> s'.head == s.head && IsChain(s'.next, s'.head.node, free)
    decreases |events|
  {
    if events != [] {
      var e := events[0];
      InvStep(s, e, free);
      TagStep(s, e, free);
      TagFreezesRun(Apply(s, e), events[1..], s', NextFree(s, e, free));
    }
  }

  /**
   What the tag buys: along any run, if the tag is back to what a thread saw
   then the head, its link and indeed the whole free list are what it saw, no
   matter what owners wrote into their slabs in between.
   */
  lemma UnchangedTagMeansUnchangedList(s: State, events: seq<Event>, s': State)
    requires Reachable(s) && Runs(s, events, s')
    ensures s.head.tag <= s'.head.tag
    ensures s.head.tag == s'.head.tag ==> s'.head == s.head
    ensures s.head.tag == s'.head.tag ==> exists free ::
      IsChain(s.next, s.head.node, free) && IsChain(s'.next, s'.head.node, free)
    ensures s.head.tag == s'.head.tag && s.head.node.At? ==>
      Load(s'.next, s.head.node.slab) == Load(s.next, s.head.node.slab)
  {
    var free := ReachableInv(s);
    TagFreezesRun(s, events, s', free);
  }

  // ------------------------------------------------------------------ left alone

  /** What the thread does next if nothing gets in its way; the bits of fresh memory do not matter. */
  function OwnAction(s: State, t: nat): Action
    requires t < |s.threads|
  {
    match s.threads[t].pc
    case Idle => LoadForPop
    case PopLoaded(seen) => if seen.node.At? then ReadNext else AllocateChunk(seq(s.n, _ => Null))
    case PopRead(_, _) => CasPop(false)
    case Carving(_, i) => if i + 1 < s.n then LinkNext else LoadForCarve
    case CarveLoaded(_, _) => StoreTail
    case CarveLinked(_, _) => CasCarve(false)
    case PushLoaded(_, _) => StoreNext
    case PushLinked(_, _) => CasPush(false)
  }

  /** The same action but for what it leaves to chance. */
  predicate IsLike(a: Action, b: Action) {
    match a
    case AllocateChunk(_) => b.AllocateChunk?
    case CasPop(_) => b.CasPop?
    case CasCarve(_) => b.CasCarve?
    case CasPush(_) => b.CasPush?
    case _ => a == b
  }

  /**
   Inside a call a thread has one thing to do next, however it turns out: in particular
   only one that saw no free slab carves.
   */
  lemma NextActionIsForced(s: State, t: nat, a: Action)
    requires t < |s.threads| && !s.threads[t].pc.Idle? && Enabled(s, Event(t, a)) && !a.Scribble? && !a.HandOver?
    ensures IsLike(a, OwnAction(s, t))
    ensures |Apply(s, Event(t, a)).next| > |s.next| ==>
      s.threads[t].pc.PopLoaded? && s.threads[t].pc.seen.node.Null?
  {
  }

  /** Steps it takes at most: a stale snapshot costs another round. */
  function StepsLeft(s: State, t: nat): nat
    requires t < |s.threads|
  {
    match s.threads[t].pc
    case Idle => 0
    case PopLoaded(seen) => if seen.node.Null? then s.n + 3 else if seen == s.head then 2 else s.n + 5
    case PopRead(seen, _) => if seen == s.head then 1 else s.n + 4
    case Carving(_, i) => if i < s.n then s.n - i + 2 else 3
    case CarveLoaded(_, seen) => if seen == s.head then 2 else 4
    case CarveLinked(_, seen) => if seen == s.head then 1 else 3
    case PushLoaded(_, seen) => if seen == s.head then 2 else 4
    case PushLinked(_, seen) => if seen == s.head then 1 else 3
  }

  /** What the call that thread `t` is in has done when it returns: a push its push, an allocation its allocation. */
  ghost predicate IsCompleted(s: State, t: nat, s': State)
    requires t < |s.threads| == |s'.threads|
  {
    var th, th' := s.threads[t], s'.threads[t];
    match th.pc
    case Idle => s' == s
    case PushLoaded(slab, _) => s'.head.node == At(slab) && th'.owned == th.owned && |s'.next| == |s.next|
    case PushLinked(slab, _) => s'.head.node == At(slab) && th'.owned == th.owned && |s'.next| == |s.next|
    case pc =>
      && HasOneMore(th.owned, th'.owned)
      && (pc.Carving? || pc.CarveLoaded? || pc.CarveLinked? ==> |s'.next| == |s.next|)
      && (pc.PopLoaded? && pc.seen.node.Null? ==> |s'.next| == |s.next| + s.n)
  }

  ghost predicate HasOneMore(before: set<int>, after: set<int>) {
    exists slab :: slab !in before && after == before + {slab}
  }

  lemma OwnStepIsOpen(s: State, t: nat, free: seq<int>)
    requires Inv(s, free) && t < |s.threads| && !s.threads[t].pc.Idle?
    ensures Enabled(s, Event(t, OwnAction(s, t)))
    ensures
      var s' := Apply(s, Event(t, OwnAction(s, t)));
      && |s'.threads| == |s.threads| && s'.n == s.n
      && StepsLeft(s', t) < StepsLeft(s, t)
  {
    assert PcOk(s, s.threads[t].pc);
    hide IsChain, Separate, Covered, PcsOk;
  }

  /** A step that returns from an allocation hands out a slab the thread did not have. */
  lemma OwnStepReturns(s: State, t: nat, free: seq<int>)
    requires Inv(s, free) && t < |s.threads| && !s.threads[t].pc.Idle? && Enabled(s, Event(t, OwnAction(s, t)))
    ensures
      var s' := Apply(s, Event(t, OwnAction(s, t)));
      |s'.threads| == |s.threads| && (s'.threads[t].pc.Idle? ==> IsCompleted(s, t, s'))
  {
    var th := s.threads[t];
    assert PcOk(s, th.pc);
    assert forall a :: a in th.owned ==> Holds(s, t, a);
    var slab := match th.pc
      case PopLoaded(_) => |s.next|
      case PopRead(seen, _) => if seen.node.At? then seen.node.slab else 0
      case CarveLinked(base, _) => base + s.n - 1
      case _ => 0;
    if th.pc.PopRead? && th.pc.seen == s.head { assert slab == free[0] && slab in free; }
    if th.pc.CarveLinked? { assert Holds(s, t, slab) && InFlight(s.n, th.pc, slab); }
    hide PcsOk, Covered;
  }

  lemma OwnStepGoesOn(s: State, t: nat, free: seq<int>, s1: State, s': State)
    requires Inv(s, free) && t < |s.threads| == |s'.threads| && !s.threads[t].pc.Idle?
    requires Enabled(s, Event(t, OwnAction(s, t))) && s1 == Apply(s, Event(t, OwnAction(s, t)))
    requires |s1.threads| == |s.threads| && !s1.threads[t].pc.Idle? && IsCompleted(s1, t, s')
    ensures IsCompleted(s, t, s')
  {
    hide IsChain, Separate, Covered, PcsOk, HasOneMore;
  }

  /**
   Obstruction freedom: from every reachable state each thread, left alone, comes to the
   end of its call within n + 5 steps, and the call has then done what it was for.
   */
  lemma {:induction false} FinishesAlone(s: State, t: nat, free: seq<int>)
    returns (events: seq<Event>, s': State, free': seq<int>)
    requires Inv(s, free) && t < |s.threads|
    ensures Runs(s, events, s') && Inv(s', free') && |events| <= StepsLeft(s, t) <= s.n + 5
    ensures forall k :: 0 <= k < |events| ==> events[k].thread == t
    ensures |s'.threads| == |s.threads| && s'.threads[t].pc.Idle? && IsCompleted(s, t, s')
    decreases StepsLeft(s, t)
  {
    if s.threads[t].pc.Idle? {
      events, s', free' := [], s, free;
    } else {
      var e := Event(t, OwnAction(s, t));
      assert StepsLeft(s, t) <= s.n + 5 by { FewSteps(s, t, free); }
      OwnStepIsOpen(s, t, free);
      InvStep(s, e, free);
      OwnStepReturns(s, t, free);
      var s1, free1 := Apply(s, e), NextFree(s, e, free);
      hide Apply, Enabled, OwnAction, StepsLeft, Inv;
      var later;
      later, s', free' := FinishesAlone(s1, t, free1);
      events := [e] + later;
      assert events[1..] == later;
      if s1.threads[t].pc.Idle? {
        assert s' == s1 by { NothingLeft(s1, t, s'); }
      } else {
        hide IsCompleted;
        OwnStepGoesOn(s, t, free, s1, s');
      }
    }
  }

  lemma FewSteps(s: State, t: nat, free: seq<int>)
    requires Inv(s, free) && t < |s.threads|
    ensures StepsLeft(s, t) <= s.n + 5
  {
    assert PcOk(s, s.threads[t].pc);
  }

  lemma NothingLeft(s: State, t: nat, s': State)
    requires t < |s.threads| == |s'.threads| && s.threads[t].pc.Idle? && IsCompleted(s, t, s')
    ensures s' == s
  {
  }

  /**
   An allocation by a thread left alone takes the first slab of the free list, or,
   if there is none, carves exactly one chunk; either way it hands out one more slab.
   */
  lemma AllocateAlone(s: State, t: nat) returns (events: seq<Event>, s': State)
    requires Reachable(s) && t < |s.threads| && s.threads[t].pc.Idle?
    ensures Runs(s, events, s') && forall k :: 0 <= k < |events| ==> events[k].thread == t
    ensures |s'.threads| == |s.threads| && s'.threads[t].pc.Idle?
    ensures HasOneMore(s.threads[t].owned, s'.threads[t].owned)
    ensures match s.head.node
      case Null => |s'.next| == |s.next| + s.n
      case At(slab) =>
        && s'.next == s.next && s'.threads[t].owned == s.threads[t].owned + {slab}
        && s'.head.node == Load(s.next, slab)
  {
    var free := ReachableInv(s);
    var first := Event(t, LoadForPop);
    InvStep(s, first, free);
    var s1 := Apply(s, first);
    var later, end, free';
    match s.head.node {
    case Null =>
      later, end, free' := FinishesAlone(s1, t, NextFree(s, first, free));
    case At(slab) =>
      var s2 := Apply(s1, Event(t, ReadNext));
      later, end := [Event(t, ReadNext), Event(t, CasPop(false))], Apply(s2, Event(t, CasPop(false)));
      assert later[1..] == [Event(t, CasPop(false))] && later[1..][1..] == [];
      assert Runs(s2, later[1..], end) && Runs(s1, later, end);
      assert slab == free[0] && slab in free && !Holds(s, t, slab);
    }
    events, s' := [first] + later, end;
    assert events[1..] == later;
  }

  /** A deallocation by a thread left alone puts its slab in front of the free list. */
  lemma DeallocateAlone(s: State, t: nat, slab: int) returns (events: seq<Event>, s': State)
    requires Reachable(s) && t < |s.threads| && s.threads[t].pc.Idle? && slab in s.threads[t].owned
    ensures Runs(s, events, s') && |events| == 3 && forall k :: 0 <= k < |events| ==> events[k].thread == t
    ensures s'.head.node == At(slab) && s'.next == Store(s.next, slab, s.head.node) && InMemory(s.next, slab)
    ensures |s'.threads| == |s.threads| && s'.threads[t] == Thread(Idle, s.threads[t].owned - {slab})
  {
    var free := ReachableInv(s);
    assert Holds(s, t, slab);
    var one, two, three := Event(t, BeginPush(slab)), Event(t, StoreNext), Event(t, CasPush(false));
    var s1 := Apply(s, one);
    var s2 := Apply(s1, two);
    s' := Apply(s2, three);
    events := [one, two, three];
    assert events[1..] == [two, three] && events[1..][1..] == [three] && events[1..][1..][1..] == [];
    assert Runs(s2, [three], s') && Runs(s1, [two, three], s');
  }

  /** The owner of a slab may write anything into it at any time, and hand it to any other thread. */
  lemma OwnersDoAsTheyLike(s: State, t: nat, slab: int, bits: Ptr, to: nat)
    requires Reachable(s) && t < |s.threads| && slab in s.threads[t].owned
    ensures
      && InMemory(s.next, slab) && Enabled(s, Event(t, Scribble(slab, bits)))
      && Apply(s, Event(t, Scribble(slab, bits))) == s.(next := s.next[slab := bits])
    ensures to < |s.threads| && to != t ==>
      && Enabled(s, Event(t, HandOver(slab, to)))
      && var s' := Apply(s, Event(t, HandOver(slab, to)));
      && |s'.threads| == |s.threads| && slab in s'.threads[to].owned && slab !in s'.threads[t].owned
  {
    var free := ReachableInv(s);
    assert Holds(s, t, slab);
  }
}
