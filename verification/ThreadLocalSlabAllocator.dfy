/**
 The slab allocator with one free list per thread and a mutex-guarded central
 pool of whole chunks (`StaticThreadLocalSlabAllocator`).

 A state machine again: one action is one access to the central pool or one
 step on the acting thread's own list.  A chunk has `n` slabs.  Threads
 interleave freely, owners overwrite their slabs at will, and a slab may be
 freed by a thread other than the one that allocated it.
 */
module ThreadLocalSlabAllocator {
  import opened LinkedMemory

  /** An entry of the central pool. */
  datatype ChunkNode = ChunkNode(head: Ptr, tail: Ptr)

  datatype Pc =
    | Idle
    | Refilling                             // own list empty, about to lock the central pool
    | NeedChunk                             // central pool was empty too
    | Mounting(node: ChunkNode)             // holds a chunk from the central pool
    | Carving(base: nat, i: nat)            // linking a new chunk, next slab is i
    | Popping(mounted: bool)                // list not empty; a chunk may have been mounted just now
    | Cutting(head: Ptr, tail: Ptr, hops: nat)
    | Publishing(node: ChunkNode)           // holds a chunk for the central pool

  /** A thread's own pool; `chunks` counts the chunks it carved. */
  datatype Local = Local(pc: Pc, head: Ptr, count: int, threshold: int, chunks: nat, owned: set<int>)

  datatype State = State(n: nat, next: Memory, central: seq<ChunkNode>, threads: seq<Local>)

  datatype Action =
    | BeginAllocate
    | Refill
    | AllocateChunk(garbage: seq<Ptr>)      // fresh memory holds arbitrary bits
    | Mount
    | LinkNext
    | FinishCarve
    | Pop
    | Deallocate(slab: int)
    | Hop
    | Cut
    | Publish
    | Scribble(slab: int, bits: Ptr)
    | HandOver(slab: int, to: nat)

  datatype Event = Event(thread: nat, action: Action)

  predicate Enabled(s: State, e: Event) {
    e.thread < |s.threads| &&
    var th := s.threads[e.thread];
    match e.action
    case BeginAllocate => th.pc.Idle?
    case Refill => th.pc.Refilling?
    case AllocateChunk(garbage) => th.pc.NeedChunk? && |garbage| == s.n
    case Mount => th.pc.Mounting?
    case LinkNext => th.pc.Carving? && th.pc.i < s.n
    case FinishCarve => th.pc.Carving? && th.pc.i >= s.n
    case Pop => th.pc.Popping?
    case Deallocate(slab) => th.pc.Idle? && slab in th.owned
    case Hop => th.pc.Cutting? && th.pc.hops < s.n - 1
    case Cut => th.pc.Cutting? && th.pc.hops >= s.n - 1
    case Publish => th.pc.Publishing?
    case Scribble(slab, _) => slab in th.owned
    case HandOver(slab, to) => slab in th.owned && to < |s.threads| && to != e.thread
  }

  /** The pointers an action dereferences. */
  function Dereferenced(s: State, e: Event): set<Ptr>
    requires Enabled(s, e)
  {
    var th := s.threads[e.thread];
    match e.action
    case Mount => {th.pc.node.tail}
    case LinkNext => {At(th.pc.base + th.pc.i)}
    case Pop => {th.head}
    case Deallocate(slab) => {At(slab)}
    case Hop => {th.pc.tail}
    case Cut => {th.pc.tail}
    case Scribble(slab, _) => {At(slab)}
    case _ => {}
  }

  function Follow(next: Memory, p: Ptr): Ptr {
    if p.At? then Load(next, p.slab) else Null
  }

  function Write(next: Memory, p: Ptr, bits: Ptr): Memory {
    if p.At? then Store(next, p.slab, bits) else next
  }

  function Set(s: State, t: nat, th: Local): State
    requires t < |s.threads|
  {
    s.(threads := s.threads[t := th])
  }

  function Apply(s: State, e: Event): (s': State)
    requires Enabled(s, e)
    ensures |s'.threads| == |s.threads| && s'.n == s.n
  {
    var t := e.thread;
    var th := s.threads[t];
    match e.action
    case BeginAllocate => Set(s, t, th.(pc := if th.count == 0 then Refilling else Popping(false)))
    case Refill =>
      if s.central == [] then Set(s, t, th.(pc := NeedChunk))
      else
        Set(s.(central := s.central[..|s.central| - 1]), t, th.(pc := Mounting(s.central[|s.central| - 1])))
    case AllocateChunk(garbage) =>
      Set(s.(next := s.next + garbage), t, th.(pc := Carving(|s.next|, 0)))
    case Mount =>
      Set(s.(next := Write(s.next, th.pc.node.tail, th.head)), t,
          th.(pc := Popping(true), head := th.pc.node.head, count := th.count + s.n))
    case LinkNext =>
      var a := th.pc.base + th.pc.i;
      Set(s.(next := Store(s.next, a, th.head)), t, th.(pc := Carving(th.pc.base, th.pc.i + 1), head := At(a)))
    case FinishCarve =>
      Set(s, t, th.(pc := Popping(false), count := th.count + s.n, threshold := th.threshold + s.n,
                    chunks := th.chunks + 1))
    case Pop =>
      Set(s, t, th.(pc := Idle, head := Follow(s.next, th.head), count := th.count - 1,
                    owned := th.owned + if th.head.At? then {th.head.slab} else {}))
    case Deallocate(slab) =>
      var pc := if th.count + 1 >= th.threshold then Cutting(At(slab), At(slab), 0) else Idle;
      Set(s.(next := Store(s.next, slab, th.head)), t,
          th.(pc := pc, head := At(slab), count := th.count + 1, owned := th.owned - {slab}))
    case Hop =>
      Set(s, t, th.(pc := Cutting(th.pc.head, Follow(s.next, th.pc.tail), th.pc.hops + 1)))
    case Cut =>
      Set(s.(next := Write(s.next, th.pc.tail, Null)), t,
          th.(pc := Publishing(ChunkNode(th.pc.head, th.pc.tail)), head := Follow(s.next, th.pc.tail)))
    case Publish =>
      Set(s.(central := s.central + [th.pc.node]), t, th.(pc := Idle, count := th.count - s.n))
    case Scribble(slab, bits) => s.(next := Store(s.next, slab, bits))
    case HandOver(slab, to) =>
      s.(threads := s.threads[t := th.(owned := th.owned - {slab})]
                             [to := s.threads[to].(owned := s.threads[to].owned + {slab})])
  }

  predicate Runs(s: State, events: seq<Event>, s': State)
    decreases |events|
  {
    if events == [] then s == s'
    else Enabled(s, events[0]) && Runs(Apply(s, events[0]), events[1..], s')
  }

  function Initial(n: nat, threads: nat): State {
    State(n, [], [], seq(threads, _ => Local(Idle, Null, 0, n, 0, {})))
  }

  ghost predicate Reachable(s: State) {
    exists threads: nat, events :: s.n >= 1 && Runs(Initial(s.n, threads), events, s)
  }

  // ---------------------------------------------------------------- invariant

  /** The lists behind the pointers: each thread's free list, its chunk in transit, each pooled chunk. */
  datatype View = View(locals: seq<seq<int>>, transit: seq<seq<int>>, pool: seq<seq<int>>)

  datatype Place = OnList(thread: int) | InTransit(thread: int) | Owned(thread: int) | Pooled(entry: int)

  predicate In(s: State, v: View, p: Place, a: int) {
    match p
    case OnList(t) => 0 <= t < |v.locals| && a in v.locals[t]
    case InTransit(t) => 0 <= t < |v.transit| && a in v.transit[t]
    case Owned(t) => 0 <= t < |s.threads| && a in s.threads[t].owned
    case Pooled(j) => 0 <= j < |v.pool| && a in v.pool[j]
  }

  /** Exactly n slabs from chunk_head to chunk_tail. */
  predicate IsChunk(n: nat, next: Memory, node: ChunkNode, list: seq<int>) {
    n >= 1 && |list| == n && Distinct(list) && IsChain(next, node.head, list) && node.tail == At(list[n - 1])
  }

  function Fresh(base: nat, i: nat, n: nat): seq<int>
    requires i <= n
  {
    seq(n - i, k requires 0 <= k < n - i => base + i + k)
  }

  predicate ThreadOk(s: State, th: Local, local: seq<int>, transit: seq<int>) {
    && Distinct(local) && IsChain(s.next, th.head, local)
    && th.threshold == s.n * (1 + th.chunks) && th.threshold >= s.n
    && match th.pc
       case Idle => transit == [] && th.count == |local| < th.threshold
       case Refilling => transit == [] && local == [] && th.count == 0
       case NeedChunk => transit == [] && local == [] && th.count == 0
       case Mounting(node) => local == [] && th.count == 0 && IsChunk(s.n, s.next, node, transit)
       case Carving(base, i) =>
         i <= s.n && th.count == 0 && |local| == i && base + s.n <= |s.next| && transit == Fresh(base, i, s.n)
       case Popping(mounted) =>
         && transit == [] && 1 <= th.count == |local| <= th.threshold
         && (if mounted then th.count == s.n else th.count < th.threshold)
       case Cutting(head, tail, hops) =>
         && transit == [] && th.count == |local| == th.threshold
         && head == th.head && hops <= s.n - 1 && tail == At(local[hops])
       case Publishing(node) =>
         th.count == |local| + s.n == th.threshold && IsChunk(s.n, s.next, node, transit)
  }

  ghost predicate Placed(s: State, v: View) {
    && (forall p, a :: In(s, v, p, a) ==> InMemory(s.next, a))
    && (forall p, q, a :: In(s, v, p, a) && In(s, v, q, a) ==> p == q)
    && (forall a :: InMemory(s.next, a) ==> exists p :: In(s, v, p, a))
  }

  ghost predicate Shaped(s: State, v: View) {
    && |v.locals| == |v.transit| == |s.threads| && |v.pool| == |s.central|
    && (forall t :: 0 <= t < |s.threads| ==> ThreadOk(s, s.threads[t], v.locals[t], v.transit[t]))
    && (forall j :: 0 <= j < |s.central| ==> IsChunk(s.n, s.next, s.central[j], v.pool[j]))
  }

  ghost predicate Inv(s: State, v: View) {
    s.n >= 1 && Shaped(s, v) && Placed(s, v)
  }

  lemma InvInitial(n: nat, threads: nat)
    requires n >= 1
    ensures Inv(Initial(n, threads), View(seq(threads, _ => []), seq(threads, _ => []), []))
  {
  }

  function Source(s: State, e: Event): Place
    requires Enabled(s, e)
  {
    match e.action
    case Refill => Pooled(|s.central| - 1)
    case Deallocate(_) => Owned(e.thread)
    case HandOver(_, _) => Owned(e.thread)
    case Pop => OnList(e.thread)
    case Cut => OnList(e.thread)
    case _ => InTransit(e.thread)
  }

  /** What the acting thread's own lists look like when it acts. */
  predicate Ready(s: State, e: Event, v: View)
    requires Enabled(s, e)
  {
    |v.locals| == |v.transit| == |s.threads| && |v.pool| == |s.central| &&
    var t := e.thread;
    var th := s.threads[t];
    match e.action
    case Refill => v.transit[t] == []
    case AllocateChunk(_) => v.transit[t] == []
    case Mount => v.locals[t] == []
    case LinkNext => v.transit[t] != [] && Distinct(v.transit[t]) && v.transit[t][0] == th.pc.base + th.pc.i
    case Pop => v.locals[t] != [] && Distinct(v.locals[t]) && th.head == At(v.locals[t][0])
    case Cut => v.transit[t] == [] && s.n <= |v.locals[t]| && Distinct(v.locals[t])
    case _ => true
  }

  lemma ReadyWhenInv(s: State, e: Event, v: View)
    requires Inv(s, v) && Enabled(s, e)
    ensures Ready(s, e, v)
  {
    assert ThreadOk(s, s.threads[e.thread], v.locals[e.thread], v.transit[e.thread]);
  }

  function NextView(s: State, e: Event, v: View): (v': View)
    requires Enabled(s, e) && Ready(s, e, v)
    ensures |v'.locals| == |v.locals| && |v'.transit| == |v.transit| && |v'.pool| == |Apply(s, e).central|
  {
    var t := e.thread;
    var th := s.threads[t];
    match e.action
    case Refill =>
      if s.central == [] then v
      else v.(transit := v.transit[t := v.pool[|v.pool| - 1]], pool := v.pool[..|v.pool| - 1])
    case AllocateChunk(_) => v.(transit := v.transit[t := Fresh(|s.next|, 0, s.n)])
    case Mount => v.(locals := v.locals[t := v.transit[t] + v.locals[t]], transit := v.transit[t := []])
    case LinkNext =>
      v.(locals := v.locals[t := [th.pc.base + th.pc.i] + v.locals[t]], transit := v.transit[t := v.transit[t][1..]])
    case Pop => v.(locals := v.locals[t := v.locals[t][1..]])
    case Deallocate(slab) => v.(locals := v.locals[t := [slab] + v.locals[t]])
    case Cut =>
      v.(locals := v.locals[t := v.locals[t][s.n..]], transit := v.transit[t := v.locals[t][..s.n]])
    case Publish => v.(transit := v.transit[t := []], pool := v.pool + [v.transit[t]])
    case _ => v
  }

  function Elements(list: seq<int>): set<int> {
    set a | a in list
  }

  /** The slabs an action moves, and where to; everything else stays. */
  function Moved(s: State, e: Event, v: View): set<int>
    requires Enabled(s, e) && Ready(s, e, v)
  {
    var t := e.thread;
    var th := s.threads[t];
    match e.action
    case Refill => if s.central == [] then {} else Elements(v.pool[|v.pool| - 1])
    case AllocateChunk(_) => Elements(Fresh(|s.next|, 0, s.n))
    case Mount => Elements(v.transit[t])
    case LinkNext => {th.pc.base + th.pc.i}
    case Pop => {v.locals[t][0]}
    case Deallocate(slab) => {slab}
    case Cut => Elements(v.locals[t][..s.n])
    case Publish => Elements(v.transit[t])
    case HandOver(slab, _) => {slab}
    case _ => {}
  }

  function Target(s: State, e: Event): Place
    requires Enabled(s, e)
  {
    match e.action
    case Mount => OnList(e.thread)
    case LinkNext => OnList(e.thread)
    case Pop => Owned(e.thread)
    case Deallocate(_) => OnList(e.thread)
    case Publish => Pooled(|s.central|)
    case HandOver(_, to) => Owned(to)
    case _ => InTransit(e.thread)
  }

  predicate AfterMove(s: State, e: Event, v: View, p: Place, a: int)
    requires Enabled(s, e) && Ready(s, e, v)
  {
    if a in Moved(s, e, v) then p == Target(s, e) else In(s, v, p, a)
  }

  lemma AfterOnList(s: State, e: Event, v: View, p: Place, a: int)
    requires Enabled(s, e) && Ready(s, e, v) && p.OnList?
    requires a in Moved(s, e, v) && In(s, v, p, a) ==> p == Source(s, e)
    ensures In(Apply(s, e), NextView(s, e, v), p, a) <==> AfterMove(s, e, v, p, a)
  {
  }

  lemma AfterInTransit(s: State, e: Event, v: View, p: Place, a: int)
    requires Enabled(s, e) && Ready(s, e, v) && p.InTransit?
    requires a in Moved(s, e, v) && In(s, v, p, a) ==> p == Source(s, e)
    ensures In(Apply(s, e), NextView(s, e, v), p, a) <==> AfterMove(s, e, v, p, a)
  {
  }

  lemma AfterOwned(s: State, e: Event, v: View, p: Place, a: int)
    requires Enabled(s, e) && Ready(s, e, v) && p.Owned?
    requires a in Moved(s, e, v) && In(s, v, p, a) ==> p == Source(s, e)
    ensures In(Apply(s, e), NextView(s, e, v), p, a) <==> AfterMove(s, e, v, p, a)
  {
  }

  lemma AfterPooled(s: State, e: Event, v: View, p: Place, a: int)
    requires Enabled(s, e) && Ready(s, e, v) && p.Pooled?
    requires a in Moved(s, e, v) && In(s, v, p, a) ==> p == Source(s, e)
    ensures In(Apply(s, e), NextView(s, e, v), p, a) <==> AfterMove(s, e, v, p, a)
  {
  }

  /** One description of all the moves: what is moved changes place, what is not stays. */
  lemma InAfter(s: State, e: Event, v: View, p: Place, a: int)
    requires Enabled(s, e) && Ready(s, e, v)
    requires a in Moved(s, e, v) && In(s, v, p, a) ==> p == Source(s, e)
    ensures In(Apply(s, e), NextView(s, e, v), p, a) <==> AfterMove(s, e, v, p, a)
  {
    match p
    case OnList(_) => AfterOnList(s, e, v, p, a);
    case InTransit(_) => AfterInTransit(s, e, v, p, a);
    case Owned(_) => AfterOwned(s, e, v, p, a);
    case Pooled(_) => AfterPooled(s, e, v, p, a);
  }

  lemma MovedFromSource(s: State, e: Event, v: View, a: int)
    requires Placed(s, v) && Enabled(s, e) && Ready(s, e, v) && a in Moved(s, e, v)
    ensures InMemory(Apply(s, e).next, a)
    ensures forall q :: In(s, v, q, a) ==> q == Source(s, e)
  {
    if e.action.AllocateChunk? {
      assert forall q :: In(s, v, q, a) ==> InMemory(s.next, a);
    } else {
      assert In(s, v, Source(s, e), a);
    }
  }

  lemma PlacedStep(s: State, e: Event, v: View)
    requires Placed(s, v) && Enabled(s, e) && Ready(s, e, v)
    ensures Placed(Apply(s, e), NextView(s, e, v))
  {
    var s', v' := Apply(s, e), NextView(s, e, v);
    forall p, a
      ensures In(s', v', p, a) <==> AfterMove(s, e, v, p, a)
      ensures a in Moved(s, e, v) ==> InMemory(s'.next, a)
    {
      if a in Moved(s, e, v) { MovedFromSource(s, e, v, a); }
      InAfter(s, e, v, p, a);
    }
    forall a | InMemory(s'.next, a) ensures exists p :: In(s', v', p, a) {
      if a in Moved(s, e, v) {
        assert In(s', v', Target(s, e), a);
      } else {
        NewMemoryIsMoved(s, e, v, a);
        var p :| In(s, v, p, a);
        assert In(s', v', p, a);
      }
    }
  }

  lemma FreshMembers(base: nat, i: nat, n: nat)
    requires i <= n
    ensures forall a :: a in Fresh(base, i, n) <==> base + i <= a < base + n
  {
    forall a | base + i <= a < base + n ensures a in Fresh(base, i, n) {
      assert Fresh(base, i, n)[a - base - i] == a;
    }
  }

  lemma NewMemoryIsMoved(s: State, e: Event, v: View, a: int)
    requires Enabled(s, e) && Ready(s, e, v) && InMemory(Apply(s, e).next, a) && a !in Moved(s, e, v)
    ensures InMemory(s.next, a)
  {
    if e.action.AllocateChunk? { FreshMembers(|s.next|, 0, s.n); }
  }

  // -------------------------------------------------------------------- links

  predicate Writes(s: State, e: Event, a: int)
    requires Enabled(s, e)
  {
    && (e.action.Mount? || e.action.LinkNext? || e.action.Deallocate? || e.action.Cut? || e.action.Scribble?)
    && At(a) in Dereferenced(s, e)
  }

  /** Where the slab an action writes is. */
  function WritePlace(s: State, e: Event): Place
    requires Enabled(s, e)
  {
    match e.action
    case Mount => InTransit(e.thread)
    case LinkNext => InTransit(e.thread)
    case Cut => OnList(e.thread)
    case _ => Owned(e.thread)
  }

  lemma WrittenIsOurs(s: State, e: Event, v: View, a: int)
    requires Inv(s, v) && Enabled(s, e) && Writes(s, e, a)
    ensures In(s, v, WritePlace(s, e), a)
  {
    var t := e.thread;
    assert ThreadOk(s, s.threads[t], v.locals[t], v.transit[t]);
    if e.action.LinkNext? { FreshMembers(s.threads[t].pc.base, s.threads[t].pc.i, s.n); }
  }

  lemma LinksAfter(s: State, e: Event, a: int)
    requires Enabled(s, e) && InMemory(s.next, a) && !Writes(s, e, a)
    ensures InMemory(Apply(s, e).next, a) && Apply(s, e).next[a] == s.next[a]
  {
  }

  /** A chain stored in any place but the one being written keeps all its links. */
  lemma ChainKept(s: State, e: Event, v: View, p: Place, first: Ptr, list: seq<int>)
    requires Inv(s, v) && Enabled(s, e) && p != WritePlace(s, e)
    requires IsChain(s.next, first, list) && forall a :: a in list ==> In(s, v, p, a)
    ensures IsChain(Apply(s, e).next, first, list)
  {
    forall k | 0 <= k < |list|
      ensures InMemory(Apply(s, e).next, list[k]) && Apply(s, e).next[list[k]] == s.next[list[k]]
    {
      assert In(s, v, p, list[k]);
      if Writes(s, e, list[k]) { WrittenIsOurs(s, e, v, list[k]); }
      LinksAfter(s, e, list[k]);
    }
  }

  lemma PoolStep(s: State, e: Event, v: View, j: nat)
    requires Inv(s, v) && Enabled(s, e) && j < |s.central|
    ensures IsChunk(s.n, Apply(s, e).next, s.central[j], v.pool[j])
  {
    ChainKept(s, e, v, Pooled(j), s.central[j].head, v.pool[j]);
  }

  lemma BystanderStep(s: State, e: Event, v: View, u: nat)
    requires Inv(s, v) && Enabled(s, e) && u < |s.threads|
    requires u != e.thread || e.action.Scribble? || e.action.HandOver?
    ensures ThreadOk(Apply(s, e), s.threads[u], v.locals[u], v.transit[u])
  {
    var th := s.threads[u];
    assert ThreadOk(s, th, v.locals[u], v.transit[u]);
    ChainKept(s, e, v, OnList(u), th.head, v.locals[u]);
    match th.pc
    case Mounting(node) => ChainKept(s, e, v, InTransit(u), node.head, v.transit[u]);
    case Publishing(node) => ChainKept(s, e, v, InTransit(u), node.head, v.transit[u]);
    case _ =>
  }

  /** Storing `first` into a slab off the chain pushes that slab onto the chain. */
  lemma PushChain(next: Memory, first: Ptr, list: seq<int>, a: int)
    requires IsChain(next, first, list) && Distinct(list) && InMemory(next, a) && a !in list
    ensures IsChain(Store(next, a, first), At(a), [a] + list) && Distinct([a] + list)
  {
  }

  /** Cutting a chain after its first n slabs leaves two chains. */
  lemma CutChain(next: Memory, first: Ptr, list: seq<int>, n: nat)
    requires IsChain(next, first, list) && Distinct(list) && 1 <= n <= |list|
    ensures IsChain(Store(next, list[n - 1], Null), first, list[..n])
    ensures IsChain(Store(next, list[n - 1], Null), next[list[n - 1]], list[n..])
    ensures Distinct(list[..n]) && Distinct(list[n..])
  {
  }

  lemma BeginAllocateStep(s: State, e: Event, local: seq<int>, transit: seq<int>)
    requires s.n >= 1 && Enabled(s, e) && e.action.BeginAllocate? && ThreadOk(s, s.threads[e.thread], local, transit)
    ensures ThreadOk(Apply(s, e), Apply(s, e).threads[e.thread], local, transit)
  {
    var th := s.threads[e.thread];
  }

  lemma RefillStep(s: State, e: Event, local: seq<int>, transit: seq<int>, chunk: seq<int>)
    requires s.n >= 1 && Enabled(s, e) && e.action.Refill? && ThreadOk(s, s.threads[e.thread], local, transit)
    requires s.central != [] ==> IsChunk(s.n, s.next, s.central[|s.central| - 1], chunk)
    ensures ThreadOk(Apply(s, e), Apply(s, e).threads[e.thread], local, if s.central == [] then transit else chunk)
  {
    var th := s.threads[e.thread];
  }

  lemma AllocateChunkStep(s: State, e: Event, local: seq<int>, transit: seq<int>)
    requires s.n >= 1 && Enabled(s, e) && e.action.AllocateChunk? && ThreadOk(s, s.threads[e.thread], local, transit)
    ensures ThreadOk(Apply(s, e), Apply(s, e).threads[e.thread], local, Fresh(|s.next|, 0, s.n))
  {
    var th := s.threads[e.thread];
  }

  lemma MountStep(s: State, e: Event, local: seq<int>, transit: seq<int>)
    requires s.n >= 1 && Enabled(s, e) && e.action.Mount? && ThreadOk(s, s.threads[e.thread], local, transit)
    ensures ThreadOk(Apply(s, e), Apply(s, e).threads[e.thread], transit + local, [])
  {
    var th := s.threads[e.thread];
    assert transit + local == transit;
    assert Write(s.next, th.pc.node.tail, th.head) == s.next;
    hide IsChain, Distinct, Write;
    assert Apply(s, e).threads[e.thread] ==
      th.(pc := Popping(true), head := th.pc.node.head, count := s.n);
  }

  lemma LinkNextStep(s: State, e: Event, local: seq<int>, transit: seq<int>)
    requires s.n >= 1 && Enabled(s, e) && e.action.LinkNext? && ThreadOk(s, s.threads[e.thread], local, transit)
    requires forall a :: a in transit ==> InMemory(s.next, a) && a !in local
    ensures ThreadOk(Apply(s, e), Apply(s, e).threads[e.thread], [transit[0]] + local, transit[1..])
  {
    var th := s.threads[e.thread];
    PushChain(s.next, th.head, local, transit[0]);
  }

  lemma FinishCarveStep(s: State, e: Event, local: seq<int>, transit: seq<int>)
    requires s.n >= 1 && Enabled(s, e) && e.action.FinishCarve? && ThreadOk(s, s.threads[e.thread], local, transit)
    ensures ThreadOk(Apply(s, e), Apply(s, e).threads[e.thread], local, transit)
  {
    var c := s.threads[e.thread].chunks;
    assert s.n * (1 + (c + 1)) == s.n * (1 + c) + s.n;
    assert transit == [];
  }

  lemma PopStep(s: State, e: Event, local: seq<int>, transit: seq<int>)
    requires s.n >= 1 && Enabled(s, e) && e.action.Pop? && ThreadOk(s, s.threads[e.thread], local, transit)
    ensures ThreadOk(Apply(s, e), Apply(s, e).threads[e.thread], local[1..], transit)
  {
    var th := s.threads[e.thread];
  }

  lemma DeallocateStep(s: State, e: Event, local: seq<int>, transit: seq<int>)
    requires s.n >= 1 && Enabled(s, e) && e.action.Deallocate? && ThreadOk(s, s.threads[e.thread], local, transit)
    requires InMemory(s.next, e.action.slab) && e.action.slab !in local
    ensures ThreadOk(Apply(s, e), Apply(s, e).threads[e.thread], [e.action.slab] + local, transit)
  {
    var th := s.threads[e.thread];
    PushChain(s.next, th.head, local, e.action.slab);
  }

  lemma HopStep(s: State, e: Event, local: seq<int>, transit: seq<int>)
    requires s.n >= 1 && Enabled(s, e) && e.action.Hop? && ThreadOk(s, s.threads[e.thread], local, transit)
    ensures ThreadOk(Apply(s, e), Apply(s, e).threads[e.thread], local, transit)
  {
    var th := s.threads[e.thread];
  }

  lemma CutStep(s: State, e: Event, local: seq<int>, transit: seq<int>)
    requires s.n >= 1 && Enabled(s, e) && e.action.Cut? && ThreadOk(s, s.threads[e.thread], local, transit)
    ensures ThreadOk(Apply(s, e), Apply(s, e).threads[e.thread], local[s.n..], local[..s.n])
  {
    var th := s.threads[e.thread];
    CutChain(s.next, th.head, local, s.n);
  }

  lemma PublishStep(s: State, e: Event, local: seq<int>, transit: seq<int>)
    requires s.n >= 1 && Enabled(s, e) && e.action.Publish? && ThreadOk(s, s.threads[e.thread], local, transit)
    ensures ThreadOk(Apply(s, e), Apply(s, e).threads[e.thread], local, [])
  {
    var th := s.threads[e.thread];
  }

  /** What the acting thread needs to know about slabs outside its own list. */
  predicate Disjointness(s: State, e: Event, v: View)
    requires Enabled(s, e) && Ready(s, e, v)
  {
    var local, transit := v.locals[e.thread], v.transit[e.thread];
    match e.action
    case Refill => s.central != [] ==> IsChunk(s.n, s.next, s.central[|s.central| - 1], v.pool[|s.central| - 1])
    case LinkNext => forall a :: a in transit ==> InMemory(s.next, a) && a !in local
    case Deallocate(slab) => InMemory(s.next, slab) && slab !in local
    case _ => true
  }

  lemma DisjointWhenInv(s: State, e: Event, v: View)
    requires Inv(s, v) && Enabled(s, e) && Ready(s, e, v)
    ensures Disjointness(s, e, v)
  {
    hide ThreadOk, IsChunk;
    var t := e.thread;
    match e.action
    case Deallocate(slab) => HeldIsNotLocal(s, v, t, Owned(t), slab);
    case LinkNext =>
      forall a | a in v.transit[t] ensures InMemory(s.next, a) && a !in v.locals[t] {
        HeldIsNotLocal(s, v, t, InTransit(t), a);
      }
    case _ =>
  }

  lemma HeldIsNotLocal(s: State, v: View, t: nat, p: Place, a: int)
    requires Placed(s, v) && t < |v.locals| && !p.OnList? && In(s, v, p, a)
    ensures InMemory(s.next, a) && a !in v.locals[t]
  {
    if a in v.locals[t] { assert In(s, v, OnList(t), a); }
  }

  lemma ActorStep(s: State, e: Event, v: View)
    requires s.n >= 1 && Enabled(s, e) && Ready(s, e, v) && Disjointness(s, e, v)
    requires !e.action.Scribble? && !e.action.HandOver?
    requires ThreadOk(s, s.threads[e.thread], v.locals[e.thread], v.transit[e.thread])
    ensures ThreadOk(Apply(s, e), Apply(s, e).threads[e.thread],
                     NextView(s, e, v).locals[e.thread], NextView(s, e, v).transit[e.thread])
  {
    hide ThreadOk, IsChunk;
    var local, transit := v.locals[e.thread], v.transit[e.thread];
    match e.action
    case BeginAllocate => BeginAllocateStep(s, e, local, transit);
    case Refill => RefillStep(s, e, local, transit, if s.central == [] then [] else v.pool[|s.central| - 1]);
    case AllocateChunk(_) => AllocateChunkStep(s, e, local, transit);
    case Mount => MountStep(s, e, local, transit);
    case LinkNext => LinkNextStep(s, e, local, transit);
    case FinishCarve => FinishCarveStep(s, e, local, transit);
    case Pop => PopStep(s, e, local, transit);
    case Deallocate(_) => DeallocateStep(s, e, local, transit);
    case Hop => HopStep(s, e, local, transit);
    case Cut => CutStep(s, e, local, transit);
    case Publish => PublishStep(s, e, local, transit);
  }

  lemma ThreadsStep(s: State, e: Event, v: View, u: nat)
    requires Inv(s, v) && Enabled(s, e) && Ready(s, e, v) && u < |s.threads|
    ensures ThreadOk(Apply(s, e), Apply(s, e).threads[u], NextView(s, e, v).locals[u], NextView(s, e, v).transit[u])
  {
    hide ThreadOk, IsChunk, Placed, Apply, NextView, Disjointness, Ready, Moved, In;
    if u == e.thread && !e.action.Scribble? && !e.action.HandOver? {
      DisjointWhenInv(s, e, v);
      ActorStep(s, e, v);
    } else {
      BystanderStep(s, e, v, u);
      ListsOfOthers(s, e, v, u);
      OwnedIsIrrelevant(Apply(s, e), s.threads[u], Apply(s, e).threads[u], v.locals[u], v.transit[u]);
    }
  }

  lemma ListsOfOthers(s: State, e: Event, v: View, u: nat)
    requires Enabled(s, e) && Ready(s, e, v) && u < |s.threads|
    requires u != e.thread || e.action.Scribble? || e.action.HandOver?
    ensures NextView(s, e, v).locals[u] == v.locals[u] && NextView(s, e, v).transit[u] == v.transit[u]
    ensures Apply(s, e).threads[u] == s.threads[u].(owned := Apply(s, e).threads[u].owned)
  {
  }

  lemma OwnedIsIrrelevant(s: State, th: Local, th': Local, local: seq<int>, transit: seq<int>)
    requires ThreadOk(s, th, local, transit) && th' == th.(owned := th'.owned)
    ensures ThreadOk(s, th', local, transit)
  {
  }

  lemma ChunksStep(s: State, e: Event, v: View, j: nat)
    requires Inv(s, v) && Enabled(s, e) && Ready(s, e, v) && j < |Apply(s, e).central|
    ensures IsChunk(s.n, Apply(s, e).next, Apply(s, e).central[j], NextView(s, e, v).pool[j])
  {
    hide ThreadOk, IsChunk, Placed;
    if j < |s.central| {
      PoolStep(s, e, v, j);
    } else {
      PublishedIsChunk(s, s.threads[e.thread], v.locals[e.thread], v.transit[e.thread]);
    }
  }

  lemma PublishedIsChunk(s: State, th: Local, local: seq<int>, transit: seq<int>)
    requires ThreadOk(s, th, local, transit) && th.pc.Publishing?
    ensures IsChunk(s.n, s.next, th.pc.node, transit)
  {
  }

  lemma InvStep(s: State, e: Event, v: View)
    requires Inv(s, v) && Enabled(s, e) && Ready(s, e, v)
    ensures Inv(Apply(s, e), NextView(s, e, v))
  {
    hide ThreadOk, IsChunk, Placed;
    var s', v' := Apply(s, e), NextView(s, e, v);
    PlacedStep(s, e, v);
    forall u | 0 <= u < |s'.threads| ensures ThreadOk(s', s'.threads[u], v'.locals[u], v'.transit[u]) {
      ThreadsStep(s, e, v, u);
    }
    forall j | 0 <= j < |s'.central| ensures IsChunk(s'.n, s'.next, s'.central[j], v'.pool[j]) {
      ChunksStep(s, e, v, j);
    }
  }

  // --------------------------------------------------------------- whole runs

  lemma {:induction false} RunInv(s: State, events: seq<Event>, s': State, v: View) returns (v': View)
    requires Inv(s, v) && Total(s) == |s.next| && Runs(s, events, s')
    ensures Inv(s', v') && Total(s') == |s'.next|
    decreases |events|
  {
    if events == [] {
      v' := v;
    } else {
      ReadyWhenInv(s, events[0], v);
      InvStep(s, events[0], v);
      TotalStep(s, events[0], v);
      v' := RunInv(Apply(s, events[0]), events[1..], s', NextView(s, events[0], v));
    }
  }

  lemma ReachableInv(s: State) returns (v: View)
    requires Reachable(s)
    ensures Inv(s, v) && Total(s) == |s.next|
  {
    var threads: nat, events :| s.n >= 1 && Runs(Initial(s.n, threads), events, s);
    var s0 := Initial(s.n, threads);
    InvInitial(s.n, threads);
    NothingAtFirst(s.n, s0.threads);
    v := RunInv(s0, events, s, View(seq(threads, _ => []), seq(threads, _ => []), []));
  }

  // ------------------------------------------------------------- conservation

  /** Slabs on the thread's free list, as its counter tells; the counter drops late in a cut. */
  function FreeOf(n: nat, th: Local): int {
    if th.pc.Carving? then th.pc.i else if th.pc.Publishing? then th.count - n else th.count
  }

  /** Slabs of the chunk the thread is moving. */
  function TransitOf(n: nat, th: Local): int {
    match th.pc
    case Mounting(_) => n
    case Carving(_, i) => n - i
    case Publishing(_) => n
    case _ => 0
  }

  function Account(n: nat, th: Local): int {
    FreeOf(n, th) + TransitOf(n, th) + |th.owned|
  }

  function SumAccounts(n: nat, threads: seq<Local>): int {
    if threads == [] then 0 else Account(n, threads[0]) + SumAccounts(n, threads[1..])
  }

  /** Local free + chunks in transit + in use, over all threads, + n for each central entry. */
  function Total(s: State): int {
    SumAccounts(s.n, s.threads) + s.n * |s.central|
  }

  lemma {:induction false} SumUpdate(n: nat, threads: seq<Local>, t: nat, th: Local)
    requires t < |threads|
    ensures SumAccounts(n, threads[t := th]) == SumAccounts(n, threads) - Account(n, threads[t]) + Account(n, th)
  {
    if t == 0 {
      assert threads[0 := th][1..] == threads[1..];
    } else {
      SumUpdate(n, threads[1..], t - 1, th);
      assert threads[t := th][1..] == threads[1..][t - 1 := th];
    }
  }

  lemma {:induction false} NothingAtFirst(n: nat, threads: seq<Local>)
    requires forall t :: 0 <= t < |threads| ==> threads[t] == Local(Idle, Null, 0, n, 0, {})
    ensures SumAccounts(n, threads) == 0
  {
    if threads != [] { NothingAtFirst(n, threads[1..]); }
  }

  /** The acting thread's account changes by what it takes from or gives to the central pool. */
  lemma AccountStep(s: State, e: Event, local: seq<int>, transit: seq<int>)
    requires s.n >= 1 && Enabled(s, e) && !e.action.HandOver?
    requires ThreadOk(s, s.threads[e.thread], local, transit)
    requires e.action.Pop? && local != [] ==> local[0] !in s.threads[e.thread].owned
    ensures Account(s.n, Apply(s, e).threads[e.thread]) - Account(s.n, s.threads[e.thread]) ==
      match e.action
      case Refill => if s.central == [] then 0 else s.n
      case AllocateChunk(_) => s.n
      case Publish => 0 - s.n as int
      case _ => 0
  {
    assert e.action.Pop? ==> local != [] && s.threads[e.thread].head == At(local[0]);
    hide ThreadOk, Account;
    AccountMoves(s, e);
  }

  predicate HasNewHead(th: Local) {
    th.head.At? && th.head.slab !in th.owned
  }

  lemma AccountMoves(s: State, e: Event)
    requires Enabled(s, e) && !e.action.HandOver?
    requires s.threads[e.thread].pc.NeedChunk? || s.threads[e.thread].pc.Carving? ==> s.threads[e.thread].count == 0
    requires e.action.Pop? ==> HasNewHead(s.threads[e.thread])
    ensures Account(s.n, Apply(s, e).threads[e.thread]) - Account(s.n, s.threads[e.thread]) ==
      match e.action
      case Refill => if s.central == [] then 0 else s.n
      case AllocateChunk(_) => s.n
      case Publish => 0 - s.n as int
      case _ => 0
  {
    hide Follow, Write, Store;
    var th := s.threads[e.thread];
    match e.action
    case Deallocate(slab) => assert |th.owned - {slab}| == |th.owned| - 1;
    case Pop => assert |th.owned + {th.head.slab}| == |th.owned| + 1;
    case _ =>
  }

  lemma HandOverTotal(s: State, e: Event)
    requires Enabled(s, e) && e.action.HandOver? && e.action.slab !in s.threads[e.action.to].owned
    ensures Total(Apply(s, e)) == Total(s) && Apply(s, e).next == s.next
  {
    var t, to, slab := e.thread, e.action.to, e.action.slab;
    var giver := s.threads[t].(owned := s.threads[t].owned - {slab});
    var taker := s.threads[to].(owned := s.threads[to].owned + {slab});
    assert Account(s.n, giver) == Account(s.n, s.threads[t]) - 1;
    assert Account(s.n, taker) == Account(s.n, s.threads[to]) + 1;
    hide Account;
    SumUpdate(s.n, s.threads, t, giver);
    SumUpdate(s.n, s.threads[t := giver], to, taker);
  }

  lemma ActorTotal(s: State, e: Event, local: seq<int>, transit: seq<int>)
    requires s.n >= 1 && Enabled(s, e) && !e.action.HandOver?
    requires ThreadOk(s, s.threads[e.thread], local, transit)
    requires e.action.Pop? && local != [] ==> local[0] !in s.threads[e.thread].owned
    ensures Total(Apply(s, e)) - Total(s) == |Apply(s, e).next| - |s.next|
  {
    AccountStep(s, e, local, transit);
    hide ThreadOk, Account;
    SumUpdate(s.n, s.threads, e.thread, Apply(s, e).threads[e.thread]);
    assert s.n * (|s.central| + 1) == s.n * |s.central| + s.n;
    assert s.n * (|s.central| - 1) == s.n * |s.central| - s.n;
  }

  lemma TotalStep(s: State, e: Event, v: View)
    requires Inv(s, v) && Enabled(s, e) && Total(s) == |s.next|
    ensures Total(Apply(s, e)) == |Apply(s, e).next|
  {
    hide ThreadOk, IsChunk, Apply, Total;
    var t := e.thread;
    if e.action.HandOver? {
      assert In(s, v, Owned(t), e.action.slab) && !In(s, v, Owned(e.action.to), e.action.slab);
      HandOverTotal(s, e);
    } else {
      if e.action.Pop? && v.locals[t] != [] {
        assert In(s, v, OnList(t), v.locals[t][0]) && !In(s, v, Owned(t), v.locals[t][0]);
      }
      ActorTotal(s, e, v.locals[t], v.transit[t]);
    }
  }

  /** A thread's free list, with the length its counter tells. */
  ghost predicate IsFreeList(s: State, th: Local, list: seq<int>) {
    && Distinct(list) && IsChain(s.next, th.head, list)
    && match th.pc
       case Carving(_, i) => |list| == i && th.count == 0
       case Publishing(_) => |list| + s.n == th.count
       case _ => |list| == th.count
  }

  /** What a thread's own invariant says about its list and its counters. */
  lemma ThreadFacts(s: State, th: Local, local: seq<int>, transit: seq<int>)
    requires s.n >= 1 && ThreadOk(s, th, local, transit)
    ensures IsFreeList(s, th, local)
    ensures 0 <= th.count <= th.threshold == s.n * (1 + th.chunks)
    ensures th.count == th.threshold <==> IsAtThreshold(th)
  {
    if th.chunks > 0 { assert s.n * (1 + th.chunks) >= 2 * s.n; }
  }

  /** Cutting, not done with it, or about to pop from a chunk it got before it ever carved one. */
  predicate IsAtThreshold(th: Local) {
    th.pc.Cutting? || th.pc.Publishing? || (th.pc.Popping? && th.pc.mounted && th.chunks == 0)
  }

  /**
   Conservation, over all runs: every slab ever carved is on one thread's free
   list, in one central entry, in one chunk in transit, or in use.
   */
  lemma SlabsAreConserved(s: State)
    requires Reachable(s)
    ensures |s.next| == SumAccounts(s.n, s.threads) + s.n * |s.central|
  {
    var v := ReachableInv(s);
  }

  /**
   A thread's counter is the length of its acyclic, null-terminated free list,
   but for the two moments at which it lags: it is raised after a chunk has been
   carved and lowered after one has been published.
   */
  lemma CounterIsListLength(s: State, t: nat)
    requires Reachable(s) && t < |s.threads|
    ensures exists list :: IsFreeList(s, s.threads[t], list)
  {
    hide ThreadOk, IsChunk, Placed;
    var v := ReachableInv(s);
    ThreadFacts(s, s.threads[t], v.locals[t], v.transit[t]);
  }

  /** A central entry is a chain of exactly n distinct slabs from chunk_head to chunk_tail. */
  lemma EntryIsWholeChunk(s: State, j: nat)
    requires Reachable(s) && j < |s.central|
    ensures exists list :: IsChunk(s.n, s.next, s.central[j], list)
  {
    hide ThreadOk, IsChunk, Placed;
    var v := ReachableInv(s);
    assert IsChunk(s.n, s.next, s.central[j], v.pool[j]);
  }

  /** No slab is ever in two places at once; in particular it never has two owners. */
  lemma EverySlabHasOnePlace(s: State)
    requires Reachable(s)
    ensures exists v :: Shaped(s, v) && forall a :: InMemory(s.next, a) ==>
      && (exists p :: In(s, v, p, a))
      && (forall p, q :: In(s, v, p, a) && In(s, v, q, a) ==> p == q)
  {
    var v := ReachableInv(s);
    assert Shaped(s, v) && Placed(s, v);
  }

  /** No step follows a null or foreign pointer: in particular the n - 1 hops never run off the list. */
  lemma DereferencesAreSafe(s: State, e: Event, p: Ptr)
    requires Reachable(s) && Enabled(s, e) && p in Dereferenced(s, e)
    ensures p.At? && InMemory(s.next, p.slab)
  {
    var v := ReachableInv(s);
    DereferenceStep(s, e, v, p);
  }

  lemma DereferenceStep(s: State, e: Event, v: View, p: Ptr)
    requires Inv(s, v) && Enabled(s, e) && p in Dereferenced(s, e)
    ensures p.At? && InMemory(s.next, p.slab)
  {
    var t := e.thread;
    assert ThreadOk(s, s.threads[t], v.locals[t], v.transit[t]);
    match e.action
    case Deallocate(slab) => assert In(s, v, Owned(t), slab);
    case Scribble(slab, _) => assert In(s, v, Owned(t), slab);
    case _ =>
  }

  // ----------------------------------------------------------------- stranding

  function SumCounts(threads: seq<Local>): int {
    if threads == [] then 0 else threads[0].count + SumCounts(threads[1..])
  }

  function SumChunks(threads: seq<Local>): nat {
    if threads == [] then 0 else threads[0].chunks + SumChunks(threads[1..])
  }

  function SumOwned(threads: seq<Local>): nat {
    if threads == [] then 0 else |threads[0].owned| + SumOwned(threads[1..])
  }

  /** Threads with a chunk from the central pool that they have not mounted yet. */
  function Mounts(threads: seq<Local>): nat {
    if threads == [] then 0 else (if threads[0].pc.Mounting? then 1 else 0) + Mounts(threads[1..])
  }

  /** Chunks whose memory has been allocated; the thread counts its chunk when it is carved. */
  function BegunBy(th: Local): nat {
    th.chunks + if th.pc.Carving? then 1 else 0
  }

  function SumBegun(threads: seq<Local>): nat {
    if threads == [] then 0 else BegunBy(threads[0]) + SumBegun(threads[1..])
  }

  lemma {:induction false} BegunUpdate(threads: seq<Local>, t: nat, th: Local)
    requires t < |threads|
    ensures SumBegun(threads[t := th]) == SumBegun(threads) - BegunBy(threads[t]) + BegunBy(th)
  {
    if t == 0 {
      assert threads[0 := th][1..] == threads[1..];
    } else {
      BegunUpdate(threads[1..], t - 1, th);
      assert threads[t := th][1..] == threads[1..][t - 1 := th];
    }
  }

  lemma BegunStep(s: State, e: Event)
    requires Enabled(s, e) && |s.next| == s.n * SumBegun(s.threads)
    ensures |Apply(s, e).next| == Apply(s, e).n * SumBegun(Apply(s, e).threads)
  {
    hide SumBegun;
    var t, s' := e.thread, Apply(s, e);
    if e.action.HandOver? {
      var giver := s.threads[t].(owned := s.threads[t].owned - {e.action.slab});
      var to := e.action.to;
      BegunUpdate(s.threads, t, giver);
      BegunUpdate(s.threads[t := giver], to, s'.threads[to]);
    } else {
      BegunUpdate(s.threads, t, s'.threads[t]);
      assert s.n * (SumBegun(s.threads) + 1) == s.n * SumBegun(s.threads) + s.n;
    }
  }

  lemma {:induction false} BegunRun(s: State, events: seq<Event>, s': State)
    requires Runs(s, events, s') && |s.next| == s.n * SumBegun(s.threads)
    ensures |s'.next| == s'.n * SumBegun(s'.threads)
    decreases |events|
  {
    hide Apply, SumBegun;
    if events != [] {
      BegunStep(s, events[0]);
      BegunRun(Apply(s, events[0]), events[1..], s');
    }
  }

  lemma {:induction false} NothingBegun(threads: seq<Local>)
    requires forall t :: 0 <= t < |threads| ==> threads[t].pc.Idle? && threads[t].chunks == 0
    ensures SumBegun(threads) == 0
  {
    if threads != [] { NothingBegun(threads[1..]); }
  }

  /** What a thread has in its account, by its counter. */
  lemma AccountByCount(s: State, th: Local, local: seq<int>, transit: seq<int>)
    requires ThreadOk(s, th, local, transit)
    ensures Account(s.n, th) + s.n * th.chunks ==
      th.count + |th.owned| + (if th.pc.Mounting? then s.n else 0) + s.n * BegunBy(th)
  {
    assert th.pc.Carving? ==> th.count == 0;
    hide ThreadOk, Account, BegunBy;
    AccountOf(s.n, th);
  }

  lemma AccountOf(n: nat, th: Local)
    requires th.pc.Carving? ==> th.count == 0
    ensures Account(n, th) + n * th.chunks ==
      th.count + |th.owned| + (if th.pc.Mounting? then n else 0) + n * BegunBy(th)
  {
    assert n * (th.chunks + 1) == n * th.chunks + n;
  }

  lemma {:induction false} SumsByCount(n: nat, threads: seq<Local>)
    requires forall t :: 0 <= t < |threads| ==>
      var th := threads[t];
      Account(n, th) + n * th.chunks == th.count + |th.owned| + (if th.pc.Mounting? then n else 0) + n * BegunBy(th)
    ensures SumAccounts(n, threads) + n * SumChunks(threads) ==
      SumCounts(threads) + SumOwned(threads) + n * Mounts(threads) + n * SumBegun(threads)
  {
    hide Account, BegunBy;
    if threads != [] {
      var th, rest := threads[0], threads[1..];
      SumsByCount(n, rest);
      Distribute(n, th.chunks, SumChunks(rest));
      Distribute(n, BegunBy(th), SumBegun(rest));
      Distribute(n, if th.pc.Mounting? then 1 else 0, Mounts(rest));
    }
  }

  lemma Distribute(n: nat, a: nat, b: nat)
    ensures n * (a + b) == n * a + n * b
  {
  }

  /**
   The counters account for every chunk carved: counted, in use, in the central
   pool, or taken from there and not mounted yet.
   */
  lemma CountersAreExact(s: State)
    requires Reachable(s)
    ensures SumCounts(s.threads) + SumOwned(s.threads) + s.n * (|s.central| + Mounts(s.threads)) ==
      s.n * SumChunks(s.threads)
  {
    hide ThreadOk, IsChunk, Placed, Account;
    var v := ReachableInv(s);
    var threads: nat, events :| s.n >= 1 && Runs(Initial(s.n, threads), events, s);
    NothingBegun(Initial(s.n, threads).threads);
    BegunRun(Initial(s.n, threads), events, s);
    forall t | 0 <= t < |s.threads|
      ensures
        var th := s.threads[t];
        Account(s.n, th) + s.n * th.chunks ==
          th.count + |th.owned| + (if th.pc.Mounting? then s.n else 0) + s.n * BegunBy(th)
    {
      AccountByCount(s, s.threads[t], v.locals[t], v.transit[t]);
    }
    SumsByCount(s.n, s.threads);
    Distribute(s.n, |s.central|, Mounts(s.threads));
  }

  /**
   Stranding: together the threads' counters never exceed n for each chunk
   carved, so the slabs stranded in k local lists number less than
   n * (chunks carved + k).  A single counter stays below its threshold except
   where `IsAtThreshold` says.
   */
  lemma StrandingIsBounded(s: State)
    requires Reachable(s)
    ensures SumCounts(s.threads) <= s.n * SumChunks(s.threads)
    ensures s.threads != [] ==> SumCounts(s.threads) < s.n * (SumChunks(s.threads) + |s.threads|)
    ensures forall t :: 0 <= t < |s.threads| ==>
      var th := s.threads[t];
      && 0 <= th.count <= th.threshold == s.n * (1 + th.chunks)
      && (th.count == th.threshold <==> IsAtThreshold(th))
  {
    hide ThreadOk, IsChunk, Placed;
    var v := ReachableInv(s);
    forall t | 0 <= t < |s.threads|
      ensures var th := s.threads[t];
        && 0 <= th.count <= th.threshold == s.n * (1 + th.chunks)
        && (th.count == th.threshold <==> IsAtThreshold(th))
    {
      ThreadFacts(s, s.threads[t], v.locals[t], v.transit[t]);
    }
    CountersAreExact(s);
    Strictly(s.n, |s.central| + Mounts(s.threads), SumChunks(s.threads), |s.threads|);
  }

  lemma Strictly(n: nat, a: nat, b: nat, k: nat)
    requires n >= 1
    ensures n * a >= 0 && (k > 0 ==> n * b < n * (b + k))
  {
  }

  // --------------------------------------------------- a counter at its threshold

  lemma {:induction false} ExtendRun(s: State, events: seq<Event>, s': State, e: Event)
    requires Runs(s, events, s') && Enabled(s', e)
    ensures Runs(s, events + [e], Apply(s', e))
    decreases |events|
  {
    hide Apply;
    if events == [] {
      assert (events + [e])[1..] == [];
    } else {
      ExtendRun(Apply(s, events[0]), events[1..], s', e);
      assert (events + [e])[1..] == events[1..] + [e];
    }
  }

  lemma ReachableNext(s: State, e: Event)
    requires Reachable(s) && Enabled(s, e)
    ensures Reachable(Apply(s, e))
  {
    hide Apply;
    var threads: nat, events :| s.n >= 1 && Runs(Initial(s.n, threads), events, s);
    ExtendRun(Initial(s.n, threads), events, s, e);
  }

  /** One slab per chunk: the first thread carves a chunk and hands its slab to the second. */
  lemma HandedOver() returns (s: State)
    ensures Reachable(s)
    ensures s == State(1, [Null], [], [Local(Idle, Null, 0, 2, 1, {}), Local(Idle, Null, 0, 1, 0, {0})])
  {
    hide Reachable;
    s := Initial(1, 2);
    assert Reachable(s) by { StartIsReachable(1, 2); }
    assert s.threads == [Local(Idle, Null, 0, 1, 0, {}), Local(Idle, Null, 0, 1, 0, {})];
    s := Next(s, Event(0, BeginAllocate));
    s := Next(s, Event(0, Refill));
    s := Next(s, Event(0, AllocateChunk([Null])));
    s := Next(s, Event(0, LinkNext));
    assert s.threads == [Local(Carving(0, 1), At(0), 0, 1, 0, {}), Local(Idle, Null, 0, 1, 0, {})];
    assert s.next == [Null] && s.central == [];
    s := Next(s, Event(0, FinishCarve));
    assert s.threads == [Local(Popping(false), At(0), 1, 2, 1, {}), Local(Idle, Null, 0, 1, 0, {})];
    s := Next(s, Event(0, Pop));
    assert s.threads[0] == Local(Idle, Null, 0, 2, 1, {0});
    assert s.threads == [Local(Idle, Null, 0, 2, 1, {0}), Local(Idle, Null, 0, 1, 0, {})];
    s := Next(s, Event(0, HandOver(0, 1)));
  }

  lemma StartIsReachable(n: nat, threads: nat)
    requires n >= 1
    ensures Reachable(Initial(n, threads))
  {
    assert Runs(Initial(n, threads), [], Initial(n, threads));
  }

  lemma Next(s: State, e: Event) returns (s': State)
    requires Reachable(s) && Enabled(s, e)
    ensures Reachable(s') && s' == Apply(s, e)
  {
    ReachableNext(s, e);
    s' := Apply(s, e);
  }

  predicate IsFull(s: State, t: nat) {
    t < |s.threads| && s.threads[t].count == s.threads[t].threshold
  }

  /**
   Both kinds of exception are reached: the second thread has carved nothing,
   so the freed slab brings it to its threshold, and so does the chunk it mounts later.
   */
  lemma ThresholdIsReached()
    ensures exists s :: Reachable(s) && IsFull(s, 1) && s.threads[1].pc.Cutting?
    ensures exists s :: Reachable(s) && IsFull(s, 1) && s.threads[1].pc.Popping?
  {
    hide Reachable;
    var s := HandedOver();
    s := Next(s, Event(1, Deallocate(0)));
    assert IsFull(s, 1) && s.threads[1].pc.Cutting?;
    assert s.threads[1].pc == Cutting(At(0), At(0), 0);
    s := Next(s, Event(1, Cut));
    s := Next(s, Event(1, Publish));
    assert s.threads[1] == Local(Idle, Null, 0, 1, 0, {}) && s.central == [ChunkNode(At(0), At(0))];
    s := Next(s, Event(1, BeginAllocate));
    s := Next(s, Event(1, Refill));
    s := Next(s, Event(1, Mount));
    assert IsFull(s, 1) && s.threads[1].pc.Popping?;
  }

  // -------------------------------------------------------------------- whole calls

  /** What the thread does next in its call; the bits of fresh memory do not matter. */
  function OwnAction(s: State, t: nat): Action
    requires t < |s.threads|
  {
    match s.threads[t].pc
    case Idle => BeginAllocate
    case Refilling => Refill
    case NeedChunk => AllocateChunk(seq(s.n, _ => Null))
    case Mounting(_) => Mount
    case Carving(_, i) => if i < s.n then LinkNext else FinishCarve
    case Popping(_) => Pop
    case Cutting(_, _, hops) => if hops < s.n - 1 then Hop else Cut
    case Publishing(_) => Publish
  }

  /**
   Inside a call a thread has one thing to do next: in particular only one that found the
   central pool empty carves.
   */
  lemma NextActionIsForced(s: State, t: nat, a: Action)
    requires t < |s.threads| && !s.threads[t].pc.Idle? && Enabled(s, Event(t, a)) && !a.Scribble? && !a.HandOver?
    ensures a == OwnAction(s, t) || (a.AllocateChunk? && OwnAction(s, t).AllocateChunk?)
    ensures |Apply(s, Event(t, a)).next| > |s.next| ==> s.threads[t].pc.NeedChunk?
  {
  }

  /** The steps a call still takes at most, whatever other threads do. */
  function StepsLeft(n: nat, pc: Pc): nat {
    match pc
    case Idle => 0
    case Popping(_) => 1
    case Mounting(_) => 2
    case Carving(_, i) => if i < n then n - i + 2 else 2
    case NeedChunk => n + 3
    case Refilling => n + 4
    case Publishing(_) => 1
    case Cutting(_, _, hops) => if hops + 1 < n then n - hops + 1 else 2
  }

  predicate IsOfCall(a: Action) {
    !a.Scribble? && !a.HandOver?
  }

  predicate Begins(a: Action) {
    a.BeginAllocate? || a.Deallocate?
  }

  function CallSteps(events: seq<Event>, t: nat): nat
    decreases |events|
  {
    if events == [] then 0
    else (if events[0].thread == t && IsOfCall(events[0].action) then 1 else 0) + CallSteps(events[1..], t)
  }

  lemma StepIsCounted(s: State, e: Event, t: nat)
    requires s.n >= 1 && Enabled(s, e) && t < |s.threads| && (e.thread == t ==> !Begins(e.action))
    ensures
      var counted := if e.thread == t && IsOfCall(e.action) then 1 else 0;
      StepsLeft(s.n, Apply(s, e).threads[t].pc) + counted <= StepsLeft(s.n, s.threads[t].pc)
  {
  }

  /**
   Calls are wait-free but for the mutex of the central pool: in any run, the steps a thread
   takes in the call it is in are bounded by where it is in it, and it always has one to take.
   */
  lemma {:induction false} CallsAreWaitFree(s: State, events: seq<Event>, s': State, t: nat)
    requires s.n >= 1 && Runs(s, events, s') && t < |s.threads|
    requires forall k :: 0 <= k < |events| && events[k].thread == t ==> !Begins(events[k].action)
    ensures |s'.threads| == |s.threads|
    ensures CallSteps(events, t) + StepsLeft(s.n, s'.threads[t].pc) <= StepsLeft(s.n, s.threads[t].pc) <= s.n + 4
    ensures !s'.threads[t].pc.Idle? ==> Enabled(s', Event(t, OwnAction(s', t)))
    decreases |events|
  {
    hide Apply, StepsLeft;
    assert StepsLeft(s.n, s.threads[t].pc) <= s.n + 4 by { FewSteps(s.n, s.threads[t].pc); }
    if events != [] {
      assert Enabled(s, events[0]);
      StepIsCounted(s, events[0], t);
      CallsAreWaitFree(Apply(s, events[0]), events[1..], s', t);
    }
  }

  lemma FewSteps(n: nat, pc: Pc)
    requires n >= 1
    ensures StepsLeft(n, pc) <= n + 4
  {
  }

  lemma AfterInv(s: State, e: Event, v: View) returns (v': View)
    requires Inv(s, v) && Enabled(s, e)
    ensures Inv(Apply(s, e), v')
  {
    ReadyWhenInv(s, e, v);
    InvStep(s, e, v);
    v' := NextView(s, e, v);
  }

  lemma PrependRun(s: State, e: Event, later: seq<Event>, s': State)
    requires Enabled(s, e) && Runs(Apply(s, e), later, s')
    ensures Runs(s, [e] + later, s')
  {
    hide Apply, Enabled;
    assert ([e] + later)[1..] == later;
  }

  /** The thread owns one slab more, and none but its own state, the pool and the links have changed. */
  ghost predicate HasAllocated(s: State, t: nat, s': State)
    requires t < |s.threads|
  {
    && t < |s'.threads| && s'.threads == s.threads[t := s'.threads[t]]
    && exists slab :: slab !in s.threads[t].owned && s'.threads[t].owned == s.threads[t].owned + {slab}
  }

  /** What the call that thread `t` is in has done when it returns, if no other thread acts. */
  ghost predicate IsCompleted(s: State, t: nat, s': State)
    requires t < |s.threads| == |s'.threads|
  {
    var th, th' := s.threads[t], s'.threads[t];
    match th.pc
    case Idle => s' == s
    case Popping(_) =>
      HasAllocated(s, t, s') && th'.count == th.count - 1 && s'.central == s.central && |s'.next| == |s.next|
    case Refilling =>
      && HasAllocated(s, t, s') && th'.count == th.count + s.n - 1
      && (if s.central == [] then s'.central == [] && |s'.next| == |s.next| + s.n
          else s'.central == s.central[..|s.central| - 1] && |s'.next| == |s.next|)
    case NeedChunk =>
      && HasAllocated(s, t, s') && th'.count == th.count + s.n - 1
      && s'.central == s.central && |s'.next| == |s.next| + s.n
    case Mounting(_) =>
      HasAllocated(s, t, s') && th'.count == th.count + s.n - 1 && s'.central == s.central && |s'.next| == |s.next|
    case Carving(_, _) =>
      HasAllocated(s, t, s') && th'.count == th.count + s.n - 1 && s'.central == s.central && |s'.next| == |s.next|
    case _ =>
      && s'.threads == s.threads[t := th'] && th'.owned == th.owned && th'.count == th.count - s.n
      && |s'.central| == |s.central| + 1 && s'.central[..|s.central|] == s.central && |s'.next| == |s.next|
  }

  lemma HeadIsFresh(s: State, t: nat, v: View)
    requires Inv(s, v) && t < |s.threads| && s.threads[t].pc.Popping?
    ensures s.threads[t].head.At? && s.threads[t].head.slab !in s.threads[t].owned
  {
    assert ThreadOk(s, s.threads[t], v.locals[t], v.transit[t]);
    var slab := v.locals[t][0];
    assert In(s, v, OnList(t), slab) && !In(s, v, Owned(t), slab);
  }

  lemma OwnStepReturns(s: State, t: nat, v: View)
    requires Inv(s, v) && t < |s.threads| && !s.threads[t].pc.Idle? && Enabled(s, Event(t, OwnAction(s, t)))
    requires Apply(s, Event(t, OwnAction(s, t))).threads[t].pc.Idle?
    ensures IsCompleted(s, t, Apply(s, Event(t, OwnAction(s, t))))
  {
    hide Inv;
    if s.threads[t].pc.Popping? { HeadIsFresh(s, t, v); }
  }

  lemma OwnStepGoesOn(s: State, t: nat, s': State)
    requires t < |s.threads| == |s'.threads| && !s.threads[t].pc.Idle? && Enabled(s, Event(t, OwnAction(s, t)))
    requires !Apply(s, Event(t, OwnAction(s, t))).threads[t].pc.Idle?
    requires IsCompleted(Apply(s, Event(t, OwnAction(s, t))), t, s')
    ensures IsCompleted(s, t, s')
  {
    var s1 := Apply(s, Event(t, OwnAction(s, t)));
    assert s1.threads == s.threads[t := s1.threads[t]] && s1.threads[t].owned == s.threads[t].owned;
    assert s1.threads[t := s'.threads[t]] == s.threads[t := s'.threads[t]];
  }

  lemma {:induction false} FinishesAlone(s: State, t: nat, v: View) returns (events: seq<Event>, s': State)
    requires Inv(s, v) && t < |s.threads|
    ensures Runs(s, events, s') && (forall k :: 0 <= k < |events| ==> events[k].thread == t)
    ensures |s'.threads| == |s.threads| && s'.threads[t].pc.Idle? && IsCompleted(s, t, s')
    decreases StepsLeft(s.n, s.threads[t].pc)
  {
    if s.threads[t].pc.Idle? {
      events, s' := [], s;
    } else {
      var e := Event(t, OwnAction(s, t));
      assert Enabled(s, e) && !Begins(e.action) && IsOfCall(e.action);
      StepIsCounted(s, e, t);
      var v1 := AfterInv(s, e, v);
      var s1 := Apply(s, e);
      if s1.threads[t].pc.Idle? {
        OwnStepReturns(s, t, v);
        events, s' := [e], s1;
        PrependRun(s, e, [], s1);
      } else {
        hide Apply, Enabled, OwnAction, StepsLeft, Inv, IsCompleted, Runs;
        var later;
        later, s' := FinishesAlone(s1, t, v1);
        OwnStepGoesOn(s, t, s');
        events := [e] + later;
        PrependRun(s, e, later, s');
      }
    }
  }

  /**
   An allocation by one thread alone: from its own list if that has a slab; else a chunk is
   taken from the central pool if that has one; only else is memory carved.
   */
  lemma AllocateAlone(s: State, t: nat) returns (events: seq<Event>, s': State)
    requires Reachable(s) && t < |s.threads| && s.threads[t].pc.Idle?
    ensures Runs(s, events, s') && forall k :: 0 <= k < |events| ==> events[k].thread == t
    ensures HasAllocated(s, t, s') && s'.threads[t].pc.Idle?
    ensures
      var count, count' := s.threads[t].count, s'.threads[t].count;
      if count > 0 then count' == count - 1 && s'.central == s.central && |s'.next| == |s.next|
      else if s.central != [] then
        count' == s.n - 1 && s'.central == s.central[..|s.central| - 1] && |s'.next| == |s.next|
      else count' == s.n - 1 && s'.central == [] && |s'.next| == |s.next| + s.n
  {
    var v := ReachableInv(s);
    assert ThreadOk(s, s.threads[t], v.locals[t], v.transit[t]);
    var first := Event(t, BeginAllocate);
    hide Inv, ThreadOk, Runs;
    var v1 := AfterInv(s, first, v);
    var s1 := Apply(s, first);
    var later;
    later, s' := FinishesAlone(s1, t, v1);
    events := [first] + later;
    PrependRun(s, first, later, s');
    assert s1.threads[t := s'.threads[t]] == s.threads[t := s'.threads[t]];
  }

  /**
   A deallocation by one thread alone: the slab goes to its own list, and if that reaches the
   threshold then a chunk goes to the central pool.
   */
  lemma DeallocateAlone(s: State, t: nat, slab: int) returns (events: seq<Event>, s': State)
    requires Reachable(s) && t < |s.threads| && s.threads[t].pc.Idle? && slab in s.threads[t].owned
    ensures Runs(s, events, s') && forall k :: 0 <= k < |events| ==> events[k].thread == t
    ensures |s'.threads| == |s.threads| && s'.threads[t].pc.Idle? && s'.threads[t].owned == s.threads[t].owned - {slab}
    ensures |s'.next| == |s.next|
    ensures
      var th, count' := s.threads[t], s'.threads[t].count;
      if th.count + 1 < th.threshold then count' == th.count + 1 && s'.central == s.central
      else count' == th.count + 1 - s.n && |s'.central| == |s.central| + 1 && s'.central[..|s.central|] == s.central
  {
    hide Inv, IsCompleted, Apply, Runs, Reachable;
    var v := ReachableInv(s);
    var first := Event(t, Deallocate(slab));
    assert Enabled(s, first);
    hide Enabled;
    var v1 := AfterInv(s, first, v);
    var later;
    later, s' := FinishesAlone(Apply(s, first), t, v1);
    events := [first] + later;
    PrependRun(s, first, later, s');
    FreedAndCut(s, t, slab, s');
  }

  lemma FreedAndCut(s: State, t: nat, slab: int, s': State)
    requires t < |s.threads| == |s'.threads| && s.threads[t].pc.Idle? && slab in s.threads[t].owned
    requires IsCompleted(Apply(s, Event(t, Deallocate(slab))), t, s')
    ensures s'.threads[t].owned == s.threads[t].owned - {slab} && |s'.next| == |s.next|
    ensures
      var th, count' := s.threads[t], s'.threads[t].count;
      if th.count + 1 < th.threshold then count' == th.count + 1 && s'.central == s.central
      else count' == th.count + 1 - s.n && |s'.central| == |s.central| + 1 && s'.central[..|s.central|] == s.central
  {
  }

  /** The owner of a slab may write anything into it at any time, and hand it to any other thread. */
  lemma OwnersDoAsTheyLike(s: State, t: nat, slab: int, bits: Ptr, to: nat)
    requires Reachable(s) && t < |s.threads| && slab in s.threads[t].owned
    ensures
      && InMemory(s.next, slab) && Enabled(s, Event(t, Scribble(slab, bits)))
      && Apply(s, Event(t, Scribble(slab, bits))) == s.(next := s.next[slab := bits])
    ensures to < |s.threads| && to != t ==>
      && Enabled(s, Event(t, HandOver(slab, to)))
      && var s' := Apply(s, Event(t, HandOver(slab, to)));
      && |s'.threads| == |s.threads| && slab in s'.threads[to].owned && slab !in s'.threads[t].owned
  {
    var v := ReachableInv(s);
    assert In(s, v, Owned(t), slab);
  }
}
