/**
 The single-producer, single-consumer queue (`SpscLockFreeQueue`).

 A state machine with one producer and one consumer.  Nodes live in a heap
 that may hand out an address again once its node was freed.  `_head` belongs
 to the consumer and `_tail` to the producer; only a node's `_next` is shared.
 */
module SpscLockFreeQueue {
  import opened Wrappers

  datatype Node<V> = Node(next: Option<int>, value: Option<V>)

  datatype Producer =
    | Resting
    | Allocated(node: int)                  // new node built, `_tail` not moved yet
    | Publishing(oldTail: int, node: int)   // `_tail` moved, old tail's `_next` not stored yet

  datatype Consumer<V> =
    | Waiting
    | Loaded(next: int)                     // saw a non-null `_next`
    | Taken(next: int, value: V)            // moved the value out of the node
    | Moved(oldHead: int, value: V)         // `_head` moved, old head not deleted yet

  /** `pushed` and `popped` record the values published and returned so far. */
  datatype State<V> = State(heap: map<int, Node<V>>, head: int, tail: int,
                            producer: Producer, consumer: Consumer<V>,
                            pushed: seq<V>, popped: seq<V>)

  datatype Action<V> =
    | NewNode(node: int, value: V)
    | SwingTail
    | StoreNext
    | LoadNext
    | TakeValue
    | MoveHead
    | DeleteOldHead

  predicate Enabled<V>(s: State<V>, a: Action<V>) {
    match a
    case NewNode(node, _) => s.producer.Resting? && node !in s.heap
    case SwingTail => s.producer.Allocated?
    case StoreNext => s.producer.Publishing?
    case LoadNext => s.consumer.Waiting?
    case TakeValue => s.consumer.Loaded?
    case MoveHead => s.consumer.Taken?
    case DeleteOldHead => s.consumer.Moved?
  }

  /** The nodes an action reads, writes or deletes. */
  function Touched<V>(s: State<V>, a: Action<V>): set<int>
    requires Enabled(s, a)
  {
    match a
    case StoreNext => {s.producer.oldTail}
    case LoadNext => {s.head}
    case TakeValue => {s.consumer.next}
    case DeleteOldHead => {s.consumer.oldHead}
    case _ => {}
  }

  /** An action on a dangling pointer has no defined effect; the model leaves the heap alone. */
  function Apply<V>(s: State<V>, a: Action<V>): State<V>
    requires Enabled(s, a)
  {
    match a
    case NewNode(node, value) =>
      s.(heap := s.heap[node := Node(None, Some(value))], producer := Allocated(node))
    case SwingTail =>
      s.(tail := s.producer.node, producer := Publishing(s.tail, s.producer.node))
    case StoreNext =>
      var t, n := s.producer.oldTail, s.producer.node;
      if t in s.heap && n in s.heap && s.heap[n].value.Some? then
        s.(heap := s.heap[t := s.heap[t].(next := Some(n))], producer := Resting,
           pushed := s.pushed + [s.heap[n].value.value])
      else s.(producer := Resting)
    case LoadNext =>
      if s.head in s.heap && s.heap[s.head].next.Some? then s.(consumer := Loaded(s.heap[s.head].next.value))
      else s                                // returns null
    case TakeValue =>
      var n := s.consumer.next;
      if n in s.heap && s.heap[n].value.Some? then
        s.(heap := s.heap[n := s.heap[n].(value := None)], consumer := Taken(n, s.heap[n].value.value))
      else s.(consumer := Waiting)
    case MoveHead => s.(head := s.consumer.next, consumer := Moved(s.head, s.consumer.value))
    case DeleteOldHead =>
      s.(heap := s.heap - {s.consumer.oldHead}, consumer := Waiting, popped := s.popped + [s.consumer.value])
  }

  ghost predicate Runs<V>(s: State<V>, actions: seq<Action<V>>, s': State<V>)
    decreases |actions|
  {
    if actions == [] then s == s'
    else Enabled(s, actions[0]) && Runs(Apply(s, actions[0]), actions[1..], s')
  }

  function Initial<V>(dummy: int): State<V> {
    State(map[dummy := Node(None, None)], dummy, dummy, Resting, Waiting, [], [])
  }

  ghost predicate Reachable<V(!new)>(s: State<V>) {
    exists dummy, actions :: Runs(Initial(dummy), actions, s)
  }

  // ---------------------------------------------------------------- invariant

  /** The value a pop in progress has in hand. */
  function InHand<V>(c: Consumer<V>): seq<V> {
    match c
    case Taken(_, v) => [v]
    case Moved(_, v) => [v]
    case _ => []
  }

  /** How many values of the chain's nodes are gone: the head's, and the next one's once taken. */
  function Gone<V>(c: Consumer<V>): nat {
    if c.Taken? then 2 else 1
  }

  predicate IsPublished<V>(heap: map<int, Node<V>>, chain: seq<int>) {
    && chain != []
    && (forall i, j :: 0 <= i < j < |chain| ==> chain[i] != chain[j])
    && (forall k :: 0 <= k < |chain| ==> chain[k] in heap)
    && (forall k {:trigger heap[chain[k]].next} :: 0 <= k < |chain| ==>
          heap[chain[k]].next == if k + 1 < |chain| then Some(chain[k + 1]) else None)
  }

  /** The published nodes past those hold `values`. */
  predicate HoldsValues<V(==)>(heap: map<int, Node<V>>, gone: nat, chain: seq<int>, values: seq<V>) {
    && |chain| == gone + |values|
    && (forall k :: 0 <= k < |chain| ==> chain[k] in heap)
    && forall k {:trigger values[k]} :: 0 <= k < |values| ==> heap[chain[gone + k]].value == Some(values[k])
  }

  /** A node being built: off the chain, unlinked, full. */
  predicate IsNew<V>(heap: map<int, Node<V>>, chain: seq<int>, node: int) {
    node in heap && node !in chain && heap[node].next == None && heap[node].value.Some?
  }

  predicate ProducerOk<V>(s: State<V>, chain: seq<int>)
    requires chain != []
  {
    var last := chain[|chain| - 1];
    match s.producer
    case Resting => s.tail == last
    case Allocated(node) => s.tail == last && IsNew(s.heap, chain, node)
    case Publishing(oldTail, node) => s.tail == node && oldTail == last && IsNew(s.heap, chain, node)
  }

  predicate ConsumerOk<V>(s: State<V>, chain: seq<int>)
    requires chain != []
  {
    s.head == chain[0] &&
    match s.consumer
    case Waiting => true
    case Loaded(next) => 2 <= |chain| && next == chain[1]
    case Taken(next, _) => 2 <= |chain| && next == chain[1]
    case Moved(oldHead, _) => oldHead in s.heap && oldHead !in chain
  }

  function Extra<V>(s: State<V>): set<int> {
    (match s.producer
     case Resting => {}
     case Allocated(node) => {node}
     case Publishing(_, node) => {node}) +
    (if s.consumer.Moved? then {s.consumer.oldHead} else {})
  }

  ghost predicate Inv<V>(s: State<V>, chain: seq<int>, values: seq<V>) {
    && IsPublished(s.heap, chain) && ProducerOk(s, chain) && ConsumerOk(s, chain)
    && HoldsValues(s.heap, Gone(s.consumer), chain, values)
    && s.pushed == s.popped + InHand(s.consumer) + values
    && (forall n :: n in s.heap <==> n in chain || n in Extra(s))
    && (s.consumer.Moved? && !s.producer.Resting? ==> s.producer.node != s.consumer.oldHead)
  }

  function NextChain<V>(s: State<V>, a: Action<V>, chain: seq<int>): seq<int>
    requires Enabled(s, a) && chain != []
  {
    match a
    case StoreNext => chain + [s.producer.node]
    case MoveHead => chain[1..]
    case _ => chain
  }

  function NextValues<V>(s: State<V>, a: Action<V>, values: seq<V>): seq<V>
    requires Enabled(s, a)
  {
    match a
    case StoreNext =>
      var n := s.producer.node;
      if n in s.heap && s.heap[n].value.Some? then values + [s.heap[n].value.value] else values
    case TakeValue => if values == [] then [] else values[1..]
    case _ => values
  }

  lemma PublishedStep<V>(s: State<V>, a: Action<V>, chain: seq<int>)
    requires IsPublished(s.heap, chain) && ProducerOk(s, chain) && ConsumerOk(s, chain) && Enabled(s, a)
    requires s.consumer.Moved? && !s.producer.Resting? ==> s.producer.node != s.consumer.oldHead
    requires s.consumer.Loaded? ==> s.heap[s.consumer.next].value.Some?
    ensures IsPublished(Apply(s, a).heap, NextChain(s, a, chain))
  {
  }

  lemma ProducerStep<V>(s: State<V>, a: Action<V>, chain: seq<int>)
    requires IsPublished(s.heap, chain) && ProducerOk(s, chain) && ConsumerOk(s, chain) && Enabled(s, a)
    requires s.consumer.Moved? && !s.producer.Resting? ==> s.producer.node != s.consumer.oldHead
    requires s.consumer.Loaded? ==> s.heap[s.consumer.next].value.Some?
    ensures NextChain(s, a, chain) != [] && ProducerOk(Apply(s, a), NextChain(s, a, chain))
  {
  }

  lemma ConsumerStep<V>(s: State<V>, a: Action<V>, chain: seq<int>)
    requires IsPublished(s.heap, chain) && ProducerOk(s, chain) && ConsumerOk(s, chain) && Enabled(s, a)
    requires s.consumer.Moved? && !s.producer.Resting? ==> s.producer.node != s.consumer.oldHead
    requires s.consumer.Loaded? ==> s.heap[s.consumer.next].value.Some?
    ensures NextChain(s, a, chain) != [] && ConsumerOk(Apply(s, a), NextChain(s, a, chain))
  {
  }

  lemma ValuesStep<V>(s: State<V>, a: Action<V>, chain: seq<int>, values: seq<V>)
    requires Inv(s, chain, values) && Enabled(s, a)
    ensures HoldsValues(Apply(s, a).heap, Gone(Apply(s, a).consumer), NextChain(s, a, chain), NextValues(s, a, values))
  {
    if a.TakeValue? { assert s.heap[chain[1]].value == Some(values[0]); }
  }

  lemma HistoryStep<V>(s: State<V>, a: Action<V>, chain: seq<int>, values: seq<V>)
    requires Inv(s, chain, values) && Enabled(s, a)
    ensures var s' := Apply(s, a); s'.pushed == s'.popped + InHand(s'.consumer) + NextValues(s, a, values)
  {
    if a.TakeValue? {
      assert s.heap[chain[1]].value == Some(values[0]);
      assert values == [values[0]] + values[1..];
    }
  }

  lemma NodesStep<V>(s: State<V>, a: Action<V>, chain: seq<int>, values: seq<V>)
    requires Inv(s, chain, values) && Enabled(s, a)
    ensures var s' := Apply(s, a); forall n :: n in s'.heap <==> n in NextChain(s, a, chain) || n in Extra(s')
  {
    if a.TakeValue? { assert s.heap[chain[1]].value == Some(values[0]); }
  }

  lemma InvStep<V>(s: State<V>, a: Action<V>, chain: seq<int>, values: seq<V>)
    requires Inv(s, chain, values) && Enabled(s, a)
    ensures Inv(Apply(s, a), NextChain(s, a, chain), NextValues(s, a, values))
  {
    if s.consumer.Loaded? { assert s.heap[chain[1]].value == Some(values[0]); }
    PublishedStep(s, a, chain);
    ProducerStep(s, a, chain);
    ConsumerStep(s, a, chain);
    ValuesStep(s, a, chain, values);
    HistoryStep(s, a, chain, values);
    NodesStep(s, a, chain, values);
  }

  // --------------------------------------------------------------- whole runs

  lemma {:induction false} RunInv<V>(s: State<V>, actions: seq<Action<V>>, s': State<V>,
                                      chain: seq<int>, values: seq<V>)
    returns (chain': seq<int>, values': seq<V>)
    requires Inv(s, chain, values) && Runs(s, actions, s')
    ensures Inv(s', chain', values')
    decreases |actions|
  {
    if actions == [] {
      chain', values' := chain, values;
    } else {
      InvStep(s, actions[0], chain, values);
      chain', values' := RunInv(Apply(s, actions[0]), actions[1..], s',
                                NextChain(s, actions[0], chain), NextValues(s, actions[0], values));
    }
  }

  lemma ReachableInv<V(!new)>(s: State<V>) returns (chain: seq<int>, values: seq<V>)
    requires Reachable(s)
    ensures Inv(s, chain, values)
  {
    var dummy, actions :| Runs(Initial(dummy), actions, s);
    assert Inv<V>(Initial(dummy), [dummy], []);
    chain, values := RunInv(Initial(dummy), actions, s, [dummy], []);
  }

  /** The chain from the head holds `values` in its untaken nodes, oldest first. */
  predicate Queued<V(==)>(s: State<V>, chain: seq<int>, values: seq<V>) {
    IsPublished(s.heap, chain) && s.head == chain[0] && HoldsValues(s.heap, Gone(s.consumer), chain, values)
  }

  /** What `push` was called with, in order. */
  function Asked<V>(actions: seq<Action<V>>): seq<V>
    decreases |actions|
  {
    if actions == [] then []
    else (if actions[0].NewNode? then [actions[0].value] else []) + Asked(actions[1..])
  }

  /** The value of a push in progress. */
  function Unpublished<V>(s: State<V>): seq<V> {
    if !s.producer.Resting? && s.producer.node in s.heap && s.heap[s.producer.node].value.Some? then
      [s.heap[s.producer.node].value.value]
    else []
  }

  lemma AskedStep<V>(s: State<V>, a: Action<V>, chain: seq<int>, values: seq<V>)
    requires Inv(s, chain, values) && Enabled(s, a)
    ensures Given(Apply(s, a)) == Given(s) + if a.NewNode? then [a.value] else []
  {
    if a.TakeValue? { assert s.heap[chain[1]].value == Some(values[0]); }
  }

  /** All that was given to `push` up to here. */
  function Given<V>(s: State<V>): seq<V> {
    s.pushed + Unpublished(s)
  }

  lemma AskedOfNone<V>(given: seq<V>)
    ensures given + Asked([]) == given
  {
  }

  lemma AskedFirst<V>(given: seq<V>, actions: seq<Action<V>>)
    requires actions != []
    ensures given + Asked(actions) ==
      (given + if actions[0].NewNode? then [actions[0].value] else []) + Asked(actions[1..])
  {
    var first, later := if actions[0].NewNode? then [actions[0].value] else [], Asked(actions[1..]);
    assert Asked(actions) == first + later;
    Regroup(given, first, later);
  }

  lemma {:induction false} AskedRun<V>(
      s: State<V>, actions: seq<Action<V>>, s': State<V>, chain: seq<int>, values: seq<V>)
    requires Inv(s, chain, values) && Runs(s, actions, s')
    ensures Given(s') == Given(s) + Asked(actions)
    decreases |actions|
  {
    assert chain != [];
    hide Inv, Apply, Given, Enabled, Asked;
    if actions == [] {
      AskedOfNone(Given(s));
    } else {
      var a := actions[0];
      AskedStep(s, a, chain, values);
      InvStep(s, a, chain, values);
      AskedRun(Apply(s, a), actions[1..], s', NextChain(s, a, chain), NextValues(s, a, values));
      AskedFirst(Given(s), actions);
    }
  }

  /**
   First in, first out, in every interleaving: what was popped, then what a pop
   has in hand, then what the published nodes hold, then the value of a push in
   progress, is what `push` was called with.
   */
  lemma PoppedThenPendingIsPushed<V(!new)>(dummy: int, actions: seq<Action<V>>, s: State<V>)
    requires Runs(Initial(dummy), actions, s)
    ensures Asked(actions) == s.pushed + Unpublished(s)
    ensures exists chain, values ::
      Queued(s, chain, values) && Asked(actions) == s.popped + InHand(s.consumer) + values + Unpublished(s)
  {
    var chain, values := ReachableInv(s);
    assert Queued(s, chain, values);
    var start := Initial<V>(dummy);
    assert Inv(start, [dummy], []) && start.pushed + Unpublished(start) == [];
    AskedRun(start, actions, s, [dummy], []);
    assert [] + Asked(actions) == Asked(actions);
  }

  // --------------------------------------------------------------- whole calls

  predicate IsConsumers<V>(a: Action<V>) {
    a.LoadNext? || a.TakeValue? || a.MoveHead? || a.DeleteOldHead?
  }

  /** One side's actions among those of both. */
  function BySide<V>(actions: seq<Action<V>>, consumers: bool): seq<Action<V>>
    decreases |actions|
  {
    if actions == [] then []
    else (if IsConsumers(actions[0]) == consumers then [actions[0]] else []) + BySide(actions[1..], consumers)
  }

  lemma FirstOfSide<V>(actions: seq<Action<V>>, consumers: bool)
    requires actions != []
    ensures
      var all, later := BySide(actions, consumers), BySide(actions[1..], consumers);
      if IsConsumers(actions[0]) == consumers then all != [] && all[0] == actions[0] && all[1..] == later
      else all == later
  {
  }

  function PopActions<V>(): seq<Action<V>> {
    [LoadNext, TakeValue, MoveHead, DeleteOldHead]
  }

  /** A pop that is to return `v` has done its first `k` actions. */
  predicate IsPopping<V(==)>(s: State<V>, values: seq<V>, k: nat, popped: seq<V>, v: V) {
    match k
    case 0 => s.consumer.Waiting? && s.popped == popped && [v] <= values
    case 1 => s.consumer.Loaded? && s.popped == popped && [v] <= values
    case 2 => s.consumer.Taken? && s.consumer.value == v && s.popped == popped
    case 3 => s.consumer.Moved? && s.consumer.value == v && s.popped == popped
    case _ => s.consumer.Waiting? && s.popped == popped + [v]
  }

  lemma PopStep<V>(s: State<V>, a: Action<V>, chain: seq<int>, values: seq<V>, k: nat, popped: seq<V>, v: V)
    requires Inv(s, chain, values) && Enabled(s, a) && IsPopping(s, values, k, popped, v)
    requires IsConsumers(a) ==> k < 4 && a == PopActions<V>()[k]
    ensures IsPopping(Apply(s, a), NextValues(s, a, values), if IsConsumers(a) then k + 1 else k, popped, v)
  {
    if a.LoadNext? { assert s.heap[chain[0]].next == if 1 < |chain| then Some(chain[1]) else None; }
    if a.TakeValue? { assert s.heap[chain[1]].value == Some(values[0]); }
  }

  lemma {:induction false} PopGoesOn<V>(
      s: State<V>, actions: seq<Action<V>>, s': State<V>, chain: seq<int>, values: seq<V>, k: nat, popped: seq<V>, v: V)
    requires Inv(s, chain, values) && Runs(s, actions, s') && IsPopping(s, values, k, popped, v)
    requires k <= 4 && BySide(actions, true) == PopActions<V>()[k..]
    ensures s'.consumer.Waiting? && s'.popped == popped + [v]
    decreases |actions|
  {
    assert chain != [];
    hide Inv, Apply, Enabled;
    if actions == [] {
      assert k == 4;
    } else {
      var a := actions[0];
      FirstOfSide(actions, true);
      var rest := PopActions<V>()[k..];
      assert IsConsumers(a) ==> k < 4 && a == rest[0] && rest[1..] == PopActions<V>()[k + 1..];
      hide BySide;
      PopStep(s, a, chain, values, k, popped, v);
      InvStep(s, a, chain, values);
      hide IsPopping;
      PopGoesOn(Apply(s, a), actions[1..], s', NextChain(s, a, chain), NextValues(s, a, values),
                if IsConsumers(a) then k + 1 else k, popped, v);
    }
  }

  /**
   A call of `pop`: whatever the producer does meanwhile, it returns the oldest value
   pushed and not popped.
   */
  lemma PopReturnsOldest<V(!new)>(s: State<V>, actions: seq<Action<V>>, s': State<V>)
    requires Reachable(s) && s.consumer.Waiting? && s.popped != s.pushed
    requires Runs(s, actions, s') && BySide(actions, true) == PopActions<V>()
    ensures |s.popped| < |s.pushed|
    ensures s'.consumer.Waiting? && s'.popped == s.popped + [s.pushed[|s.popped|]]
  {
    var chain, values := ReachableInv(s);
    assert s.popped + InHand(s.consumer) == s.popped && s.pushed == s.popped + values;
    assert values != [] by { assert s.popped + [] == s.popped; }
    assert [values[0]] <= values && PopActions<V>()[0..] == PopActions<V>();
    hide Inv, Reachable, Runs, BySide;
    PopGoesOn(s, actions, s', chain, values, 0, s.popped, values[0]);
  }

  lemma {:induction false} AskedBySide<V>(actions: seq<Action<V>>)
    ensures Asked(BySide(actions, false)) == Asked(actions)
    decreases |actions|
  {
    if actions != [] {
      FirstOfSide(actions, false);
      AskedBySide(actions[1..]);
    }
  }

  lemma {:induction false} PushGoesOn<V>(s: State<V>, actions: seq<Action<V>>, s': State<V>)
    requires Runs(s, actions, s') && BySide(actions, false) != []
    requires BySide(actions, false)[|BySide(actions, false)| - 1].StoreNext?
    ensures s'.producer.Resting?
    decreases |actions|
  {
    var later := BySide(actions[1..], false);
    FirstOfSide(actions, false);
    if later == [] {
      OtherSideRests(Apply(s, actions[0]), actions[1..], s');
    } else {
      PushGoesOn(Apply(s, actions[0]), actions[1..], s');
    }
  }

  lemma {:induction false} OtherSideRests<V>(s: State<V>, actions: seq<Action<V>>, s': State<V>)
    requires Runs(s, actions, s') && BySide(actions, false) == []
    ensures s'.producer == s.producer
    decreases |actions|
  {
    if actions != [] { OtherSideRests(Apply(s, actions[0]), actions[1..], s'); }
  }

  lemma AskedOfCall<V>(node: int, v: V)
    ensures Asked<V>([NewNode(node, v), SwingTail, StoreNext]) == [v]
  {
    var all: seq<Action<V>>, two: seq<Action<V>>, one: seq<Action<V>> :=
      [NewNode(node, v), SwingTail, StoreNext], [SwingTail, StoreNext], [StoreNext];
    assert all[1..] == two && two[1..] == one && one[1..] == [];
    assert Asked(one) == [] && Asked(two) == [];
    assert Asked(all) == [v] + Asked(all[1..]);
  }

  /** A call of `push`: whatever the consumer does meanwhile, its argument is then published as the newest value. */
  lemma PushPublishes<V(!new)>(s: State<V>, node: int, v: V, actions: seq<Action<V>>, s': State<V>)
    requires Reachable(s) && s.producer.Resting?
    requires Runs(s, actions, s') && BySide(actions, false) == [NewNode(node, v), SwingTail, StoreNext]
    ensures s'.producer.Resting? && s'.pushed == s.pushed + [v]
  {
    hide Apply, Enabled, Runs, Inv;
    var chain, values := ReachableInv(s);
    AskedRun(s, actions, s', chain, values);
    AskedBySide(actions);
    var calls: seq<Action<V>> := [NewNode(node, v), SwingTail, StoreNext];
    assert Asked(calls) == [v] by { AskedOfCall(node, v); }
    PushGoesOn(s, actions, s');
    assert s'.pushed + [] == s'.pushed && s.pushed + [] == s.pushed;
  }

  /** Neither side is ever stuck, and each has one thing to do next. */
  lemma NobodyIsStuck<V(!new)>(s: State<V>, node: int, v: V)
    requires Reachable(s)
    ensures s.producer.Resting? && node !in s.heap ==> Enabled(s, NewNode(node, v))
    ensures !s.producer.Resting? ==>
      exists a :: !IsConsumers(a) && Enabled(s, a) && forall b :: !IsConsumers(b) && Enabled(s, b) ==> b == a
    ensures exists a :: IsConsumers(a) && Enabled(s, a) && forall b :: IsConsumers(b) && Enabled(s, b) ==> b == a
  {
    var next: Action<V> := if s.producer.Allocated? then SwingTail else StoreNext;
    assert !s.producer.Resting? ==> Enabled(s, next);
    var c: Action<V> := match s.consumer
      case Waiting => LoadNext
      case Loaded(_) => TakeValue
      case Taken(_, _) => MoveHead
      case Moved(_, _) => DeleteOldHead;
    assert IsConsumers(c) && Enabled(s, c);
  }

  /** Neither side ever touches a freed node, and only a live node is freed. */
  lemma NeverTouchesFreedNode<V(!new)>(s: State<V>, a: Action<V>)
    requires Reachable(s) && Enabled(s, a)
    ensures Touched(s, a) <= s.heap.Keys
  {
    var chain, values := ReachableInv(s);
  }

  /** A pop answers "empty" exactly when everything published so far has been popped. */
  lemma EmptyMeansDrained<V(!new)>(s: State<V>)
    requires Reachable(s) && s.consumer.Waiting?
    ensures Apply(s, LoadNext).consumer.Waiting? <==> s.popped == s.pushed
  {
    var chain, values := ReachableInv(s);
    assert s.heap[chain[0]].next == if 1 < |chain| then Some(chain[1]) else None;
    assert s.popped + InHand(s.consumer) == s.popped;
  }

  /** The heap holds the chain from the head on and nothing else. */
  ghost predicate AtRest<V>(heap: map<int, Node<V>>, head: int, chain: seq<int>) {
    IsPublished(heap, chain) && head == chain[0] && forall n :: n in heap <==> n in chain
  }

  /** Nothing leaks: at rest the heap is the dummy head and one node for each value still queued. */
  lemma OneNodePerQueuedValue<V(!new)>(s: State<V>)
    requires Reachable(s) && s.producer.Resting? && s.consumer.Waiting?
    ensures exists chain :: AtRest(s.heap, s.head, chain)
    ensures |s.heap| == 1 + |s.pushed| - |s.popped|
  {
    var chain, values := ReachableInv(s);
    assert AtRest(s.heap, s.head, chain);
    SizeOfDistinct(chain);
    var nodes := set n | n in chain;
    assert forall n :: n in s.heap <==> n in nodes;
    assert s.heap.Keys == nodes;
  }

  lemma {:induction false} SizeOfDistinct(list: seq<int>)
    requires forall i, j :: 0 <= i < j < |list| ==> list[i] != list[j]
    ensures |set n | n in list| == |list|
  {
    if list != [] {
      var rest := list[1..];
      SizeOfDistinct(rest);
      assert (set n | n in list) == (set n | n in rest) + {list[0]};
    }
  }

  lemma DropHead<V>(heap: map<int, Node<V>>, head: int, chain: seq<int>)
    requires AtRest(heap, head, chain)
    ensures if heap[head].next == None then chain == [head] && heap - {head} == map[]
            else 2 <= |chain| && AtRest(heap - {head}, heap[head].next.value, chain[1..])
  {
    assert heap[chain[0]].next == if 1 < |chain| then Some(chain[1]) else None;
    if |chain| == 1 {
      assert forall n :: n !in heap - {head};
      assert (heap - {head}).Keys == {};
    } else {
      assert chain == [head] + chain[1..];
    }
  }

  /** The destructor: walks the chain from the head, deleting each node once, after its `_next` was read. */
  method Destroy<V>(head: int, heap: map<int, Node<V>>, ghost chain: seq<int>)
    returns (deleted: seq<int>, left: map<int, Node<V>>)
    requires AtRest(heap, head, chain)
    ensures left == map[] && deleted == chain
  {
    hide IsPublished;
    deleted, left := [], heap;
    var current := head;
    ghost var rest := chain;
    assert current in left by { DropHead(left, current, rest); }
    while left[current].next.Some?
      invariant AtRest(left, current, rest) && current in left && chain == deleted + rest
      decreases |rest|
    {
      DropHead(left, current, rest);
      var next := left[current].next.value;
      deleted := deleted + [current];
      left := left - {current};
      current := next;
      rest := rest[1..];
    }
    DropHead(left, current, rest);
    deleted := deleted + [current];
    left := left - {current};
  }
}
