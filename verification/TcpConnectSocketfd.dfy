/**
 The output side of a connection (`TcpConnectSocketfd`): what `send` cannot hand
 to the kernel at once waits in the output buffer for write events.
 */
module TcpConnectSocketfd {
  import opened TcpBuffer
  import opened Wrappers

  /** The kernel's answer to one `send` call: it takes a prefix, or fails. */
  datatype Reply = Taken(count: nat) | WouldBlock | BrokenPipe | OtherError

  datatype State = Open | ShutDown | Aborted

  /** `accepted` is all the kernel has taken, `pending` what the output buffer holds. */
  datatype Connection = Connection(
    state: State, isReading: bool, isWriting: bool, accepted: seq<Byte>, pending: seq<Byte>)

  const NEW_CONNECTION := Connection(Open, true, false, [], [])

  datatype Transfer = Transfer(count: nat, broken: bool)

  /** How much of `data` goes out before the kernel is full (as it is when `replies` end) or the pipe breaks. */
  function Transferred(data: seq<Byte>, replies: seq<Reply>): (t: Transfer)
    ensures t.count <= |data|
    decreases |replies|
  {
    if data == [] || replies == [] then Transfer(0, false)
    else
      match replies[0]
      case Taken(n) =>
        var k := Min(n, |data|);
        var rest := Transferred(data[k..], replies[1..]);
        rest.(count := k + rest.count)
      case WouldBlock => Transfer(0, false)
      case BrokenPipe => Transfer(0, true)
      case OtherError => Transferred(data, replies[1..])
  }

  /** The answers up to the first that ends the loop of `send` calls. */
  function Going(replies: seq<Reply>): nat
    decreases |replies|
  {
    if replies == [] || replies[0].WouldBlock? || replies[0].BrokenPipe? then 0 else 1 + Going(replies[1..])
  }

  function SumTaken(replies: seq<Reply>, n: nat): nat
    decreases n
  {
    if n == 0 || replies == [] then 0
    else (if replies[0].Taken? then replies[0].count else 0) + SumTaken(replies[1..], n - 1)
  }

  /**
   The kernel is offered the rest of the data until nothing is left or it is full or the pipe
   breaks: what it takes is what its answers up to then add up to.
   */
  lemma {:induction false} TransferredIsAllTaken(data: seq<Byte>, replies: seq<Reply>)
    ensures Going(replies) <= |replies|
    ensures
      var t, k := Transferred(data, replies), Going(replies);
      && t.count == Min(|data|, SumTaken(replies, k))
      && (t.broken <==> t.count < |data| && k < |replies| && replies[k].BrokenPipe?)
    decreases |replies|
  {
    if data != [] && replies != [] {
      match replies[0]
      case Taken(n) =>
        TransferredIsAllTaken(data[Min(n, |data|)..], replies[1..]);
      case OtherError => TransferredIsAllTaken(data, replies[1..]);
      case _ =>
    } else if replies != [] {
      GoingIsShort(replies);
    }
  }

  lemma {:induction false} GoingIsShort(replies: seq<Reply>)
    ensures Going(replies) <= |replies|
    decreases |replies|
  {
    if replies != [] { GoingIsShort(replies[1..]); }
  }

  /** After the write end is shut down the kernel takes nothing more. */
  function KernelReplies(state: State, replies: seq<Reply>): seq<Reply> {
    if state == Open then replies else [BrokenPipe]
  }

  /** The connection after the kernel has been offered `data`; a broken one is reset and detached from the poller. */
  function Offered(c: Connection, data: seq<Byte>, replies: seq<Reply>): Connection {
    var t := Transferred(data, KernelReplies(c.state, replies));
    var c1 := c.(accepted := c.accepted + data[..t.count]);
    if t.broken then c1.(state := Aborted, isReading := false, isWriting := false, pending := []) else c1
  }

  /** What `_send_as_many_data` reports: everything, when the pipe has broken. */
  function Reported(c: Connection, data: seq<Byte>, replies: seq<Reply>): (n: nat)
    ensures n <= |data|
  {
    var t := Transferred(data, KernelReplies(c.state, replies));
    if t.broken then |data| else t.count
  }

  datatype Event =
    | Send(data: seq<Byte>, replies: seq<Reply>)
    | WriteEvent(replies: seq<Reply>)
    | EndOfInput
    | CheckShutdown                         // at the end of either event callback

  function Step(c: Connection, event: Event): Connection {
    match event
    case Send(data, replies) =>
      if c.state == Aborted then c
      else if c.isWriting then c.(pending := c.pending + data)
      else
        var n := Reported(c, data, replies);
        var c1 := Offered(c, data, replies);
        if n == |data| then c1 else c1.(pending := c1.pending + data[n..], isWriting := true)
    case WriteEvent(replies) =>
      if c.state != Open then c
      else
        var n := Reported(c, c.pending, replies);
        var c1 := Offered(c, c.pending, replies);
        if c1.state == Aborted then c1
        else c1.(pending := c.pending[n..], isWriting := c.isWriting && n < |c.pending|)
    case EndOfInput => if c.state == Aborted then c else c.(isReading := false)
    case CheckShutdown =>
      if c.state == Open && !c.isReading && !c.isWriting then c.(state := ShutDown, pending := []) else c
  }

  function After(c: Connection, events: seq<Event>): Connection
    decreases |events|
  {
    if events == [] then c else After(Step(c, events[0]), events[1..])
  }

  /** Everything given to `send`. */
  function AllSent(events: seq<Event>): seq<Byte>
    decreases |events|
  {
    if events == [] then []
    else (if events[0].Send? then events[0].data else []) + AllSent(events[1..])
  }

  // ------------------------------------------------------------------ in order

  /** With `sent` given to `send` so far. */
  predicate InOrder(c: Connection, sent: seq<Byte>) {
    && c.accepted <= sent
    && (c.state == Open ==> c.accepted + c.pending == sent)
    && (c.state == Open && !c.isWriting ==> c.pending == [])
    && (c.state == ShutDown ==> c.accepted == sent && !c.isWriting)
  }

  lemma OfferedIsPrefix(c: Connection, data: seq<Byte>, replies: seq<Reply>)
    requires c.state != Aborted
    ensures c.accepted <= Offered(c, data, replies).accepted <= c.accepted + data
    ensures
      var n := Reported(c, data, replies);
      var c1 := Offered(c, data, replies);
      c1.state != Aborted ==> c1 == c.(accepted := c.accepted + data[..n])
    ensures c.state == ShutDown && data != [] ==>
      Offered(c, data, replies).state == Aborted && Offered(c, data, replies).accepted == c.accepted
  {
    var t := Transferred(data, KernelReplies(c.state, replies));
    assert data == data[..t.count] + data[t.count..];
    assert c.accepted + data == c.accepted + data[..t.count] + data[t.count..];
  }

  lemma SendKeepsOrder(c: Connection, sent: seq<Byte>, data: seq<Byte>, replies: seq<Reply>)
    requires InOrder(c, sent) && c.state != Aborted && !c.isWriting
    ensures InOrder(Step(c, Send(data, replies)), sent + data)
  {
    hide Offered, Reported;
    OfferedIsPrefix(c, data, replies);
    var n := Reported(c, data, replies);
    assert c.accepted == sent by { assert c.accepted + [] == c.accepted; }
    var taken, left := data[..n], data[n..];
    assert sent + data == sent + taken + left;
    assert n == |data| ==> taken == data;
    assert sent + data + [] == sent + data;
  }

  lemma WriteKeepsOrder(c: Connection, sent: seq<Byte>, replies: seq<Reply>)
    requires InOrder(c, sent) && c.state == Open
    ensures InOrder(Step(c, WriteEvent(replies)), sent)
  {
    hide Offered, Reported;
    OfferedIsPrefix(c, c.pending, replies);
    var n := Reported(c, c.pending, replies);
    var taken, left := c.pending[..n], c.pending[n..];
    assert c.accepted + c.pending == c.accepted + taken + left;
  }

  lemma StepKeepsOrder(c: Connection, sent: seq<Byte>, event: Event)
    requires InOrder(c, sent)
    ensures InOrder(Step(c, event), sent + if event.Send? then event.data else [])
  {
    hide Offered, Reported;
    assert sent + [] == sent && c.accepted + [] == c.accepted;
    match event
    case Send(data, replies) =>
      if c.state == Aborted {
        assert sent <= sent + data;
      } else if c.isWriting {
        assert c.accepted + (c.pending + data) == c.accepted + c.pending + data;
      } else {
        SendKeepsOrder(c, sent, data, replies);
      }
    case WriteEvent(replies) => if c.state == Open { WriteKeepsOrder(c, sent, replies); }
    case EndOfInput =>
    case CheckShutdown =>
  }

  lemma {:induction false} RunKeepsOrder(c: Connection, sent: seq<Byte>, events: seq<Event>)
    requires InOrder(c, sent)
    ensures InOrder(After(c, events), sent + AllSent(events))
    decreases |events|
  {
    hide Step, InOrder;
    if events == [] {
      assert sent + [] == sent;
    } else {
      var data := if events[0].Send? then events[0].data else [];
      StepKeepsOrder(c, sent, events[0]);
      RunKeepsOrder(Step(c, events[0]), sent + data, events[1..]);
      var later := AllSent(events[1..]);
      assert AllSent(events) == data + later;
      hide AllSent;
      assert sent + data + later == sent + (data + later);
    }
  }

  /**
   In-order output, for any pattern of partial sends, full kernel buffers,
   errors and write events: while the connection is open, accepted and buffered bytes are
   all that was sent, in order; what is accepted is always a prefix of it; and the
   connection shuts its write end by itself only when everything has been accepted.
   */
  lemma OutputIsInOrder(events: seq<Event>)
    ensures
      var c := After(NEW_CONNECTION, events);
      && c.accepted <= AllSent(events)
      && (c.state == Open ==> c.accepted + c.pending == AllSent(events))
      && (c.state == Open && !c.isWriting ==> c.accepted == AllSent(events))
      && (c.state == ShutDown ==> c.accepted == AllSent(events))
  {
    hide Step;
    RunKeepsOrder(NEW_CONNECTION, [], events);
    assert [] + AllSent(events) == AllSent(events);
    var c := After(NEW_CONNECTION, events);
    assert c.accepted + [] == c.accepted;
  }

  /** What the kernel takes of `data` by these answers. */
  function TakenOf(data: seq<Byte>, replies: seq<Reply>): (n: nat)
    ensures n <= |data|
  {
    Min(|data|, SumTaken(replies, Going(replies)))
  }

  /** Something is left and the answer that ends the loop is that the pipe broke. */
  predicate Breaks(data: seq<Byte>, replies: seq<Reply>) {
    && TakenOf(data, replies) < |data|
    && exists k :: 0 <= k < |replies| && k == Going(replies) && replies[k].BrokenPipe?
  }

  /** Broken off: the buffer is gone and nothing is listened for. */
  predicate IsAbortedAfter(c: Connection, accepted: seq<Byte>) {
    c == Connection(Aborted, false, false, accepted, [])
  }

  /**
   What one call of `send` does, in every state: nothing if the connection is aborted;
   behind buffered data it buffers; otherwise the kernel gets as much as it takes at once
   and the rest is buffered, to wait for a write event.
   */
  lemma SendOutcome(c: Connection, data: seq<Byte>, replies: seq<Reply>)
    ensures
      var after, n := Step(c, Send(data, replies)), TakenOf(data, replies);
      if c.state == Aborted then after == c
      else if c.isWriting then after == c.(pending := c.pending + data)
      else if c.state == ShutDown then if data == [] then after == c else IsAbortedAfter(after, c.accepted)
      else if Breaks(data, replies) then IsAbortedAfter(after, c.accepted + data[..n])
      else
        after == c.(accepted := c.accepted + data[..n], pending := c.pending + data[n..], isWriting := n < |data|)
  {
    TransferredIsAllTaken(data, KernelReplies(c.state, replies));
    if c.state == ShutDown {
      assert Going([BrokenPipe]) == 0 && SumTaken([BrokenPipe], 0) == 0;
      assert data[..0] == [] && c.accepted + [] == c.accepted;
    }
    hide Transferred, Going, SumTaken;
    assert data[|data|..] == [] && c.pending + [] == c.pending;
  }

  /**
   What a write event does: the kernel gets as much of the buffer as it takes, and
   listening ends when that is all.
   */
  lemma WriteOutcome(c: Connection, replies: seq<Reply>)
    ensures
      var after, n := Step(c, WriteEvent(replies)), TakenOf(c.pending, replies);
      if c.state != Open then after == c
      else if Breaks(c.pending, replies) then IsAbortedAfter(after, c.accepted + c.pending[..n])
      else
        after == c.(accepted := c.accepted + c.pending[..n], pending := c.pending[n..],
                    isWriting := c.isWriting && n < |c.pending|)
  {
    TransferredIsAllTaken(c.pending, KernelReplies(c.state, replies));
    hide Transferred, Going, SumTaken;
  }

  /** While the connection is open, write events are awaited exactly while something is buffered. */
  predicate AwaitsWhatIsPending(c: Connection, hasEnded: bool) {
    c.state == Open ==> (c.isWriting <==> c.pending != []) && (c.isReading <==> !hasEnded)
  }

  lemma StepAwaits(c: Connection, event: Event, hasEnded: bool)
    requires AwaitsWhatIsPending(c, hasEnded)
    ensures AwaitsWhatIsPending(Step(c, event), hasEnded || event.EndOfInput?)
  {
    hide Going, SumTaken, Transferred;
    match event
    case Send(data, replies) => SendOutcome(c, data, replies);
    case WriteEvent(replies) => WriteOutcome(c, replies);
    case _ =>
  }

  lemma {:induction false} RunAwaits(c: Connection, events: seq<Event>, hasEnded: bool)
    requires AwaitsWhatIsPending(c, hasEnded)
    ensures AwaitsWhatIsPending(After(c, events), hasEnded || EndOfInput in events)
    decreases |events|
  {
    hide Step, AwaitsWhatIsPending;
    if events != [] {
      StepAwaits(c, events[0], hasEnded);
      RunAwaits(Step(c, events[0]), events[1..], hasEnded || events[0].EndOfInput?);
      assert events == [events[0]] + events[1..];
    }
  }

  /**
   An open connection shuts its write end at the next check if and only if the peer has
   ended its input and the kernel has accepted everything that was sent.
   */
  lemma ClosesWhenDone(events: seq<Event>)
    ensures
      var c := After(NEW_CONNECTION, events);
      c.state == Open ==>
        if EndOfInput in events && c.accepted == AllSent(events) then Step(c, CheckShutdown).state == ShutDown
        else Step(c, CheckShutdown) == c
  {
    hide After, AllSent;
    RunAwaits(NEW_CONNECTION, events, false);
    OutputIsInOrder(events);
    var c := After(NEW_CONNECTION, events);
    assert c.accepted + [] == c.accepted;
  }

  /** A write event that the kernel answers by taking everything empties the buffer. */
  lemma DrainedWhenTaken(c: Connection, replies: seq<Reply>)
    requires c.state == Open && replies != [] && replies[0].Taken? && replies[0].count >= |c.pending|
    ensures
      var after := Step(c, WriteEvent(replies));
      after.pending == [] && !after.isWriting && after.accepted == c.accepted + c.pending
  {
    assert c.pending[|c.pending|..] == [] && c.pending[..|c.pending|] == c.pending;
    assert c.pending != [] ==> Transferred([], replies[1..]) == Transfer(0, false);
  }

  // ---------------------------------------------------------------- the class

  class TcpConnectSocketfd {
    var state: State
    var isReading: bool
    var isWriting: bool
    const outputBuffer: MutableSizeTcpBuffer
    ghost var accepted: seq<Byte>

    ghost predicate Valid()
      reads this, outputBuffer
    {
      outputBuffer.Valid() && (state == ShutDown ==> !isWriting)
    }

    /** An aborted or shut down connection has released its buffer. */
    ghost function Value(): Connection
      requires Valid()
      reads this, outputBuffer, outputBuffer.storage
    {
      Connection(state, isReading, isWriting, accepted, if state == Open then outputBuffer.Contents() else [])
    }

    constructor ()
      ensures Valid() && Value() == NEW_CONNECTION && fresh(outputBuffer) && fresh(outputBuffer.storage)
    {
      state, isReading, isWriting, accepted := Open, true, false, [];
      outputBuffer := new MutableSizeTcpBuffer();
    }

    method SendAsManyData(data: seq<Byte>, replies: seq<Reply>) returns (sent: nat)
      requires Valid() && state != Aborted
      modifies this`state, this`isReading, this`isWriting, this`accepted
      ensures Valid() && Value() == Offered(old(Value()), data, replies)
      ensures sent == Reported(old(Value()), data, replies)
    {
      var answers := KernelReplies(state, replies);
      sent := 0;
      var k := 0;
      while sent < |data| && k < |answers|
        invariant k <= |answers| && sent <= |data|
        invariant state == old(state) && isReading == old(isReading) && isWriting == old(isWriting)
        invariant accepted == old(accepted) + data[..sent]
        invariant
          var t := Transferred(data[sent..], answers[k..]);
          Transferred(data, answers) == Transfer(sent + t.count, t.broken)
        decreases |answers| - k
      {
        match answers[k] {
          case Taken(n) =>
            var count := Min(n, |data| - sent);
            accepted := accepted + data[sent..sent + count];
            assert data[..sent] + data[sent..sent + count] == data[..sent + count];
            assert data[sent..][count..] == data[sent + count..];
            sent := sent + count;
          case WouldBlock => return;
          case BrokenPipe =>
            AbortFromEventLoop();
            return |data|;
          case OtherError =>
        }
        k := k + 1;
      }
    }

    /** Detaches from the poller and resets the connection. */
    method AbortFromEventLoop()
      modifies this`state, this`isReading, this`isWriting
      ensures state == Aborted && !isReading && !isWriting
    {
      state, isReading, isWriting := Aborted, false, false;
    }

    method Send(data: seq<Byte>, replies: seq<Reply>)
      requires Valid()
      modifies this, outputBuffer, outputBuffer.storage
      ensures Valid() && Value() == Step(old(Value()), Event.Send(data, replies))
    {
      if state == Aborted { return; }
      if isWriting {
        outputBuffer.Append(data);
        return;
      }
      var sent := SendAsManyData(data, replies);
      if sent == |data| { return; }
      outputBuffer.Append(data[sent..]);
      isWriting := true;
    }

    method WriteEventCallback(replies: seq<Reply>)
      requires Valid()
      modifies this, outputBuffer
      ensures Valid()
      ensures
        var drained := Step(old(Value()), WriteEvent(replies));
        Value() == if drained.pending != [] then drained else Step(drained, CheckShutdown)
    {
      if state != Open { return; }
      var total := outputBuffer.GetReadableSize();
      assert accepted + [] == accepted;
      if total > 0 {
        var data := outputBuffer.storage[outputBuffer.readOffset..outputBuffer.writeOffset];
        var sent := SendAsManyData(data, replies);
        outputBuffer.ForwardReadPosition(sent);
        if sent < total { return; }
      }
      isWriting := false;
      ShutdownIfDone();
    }

    /** Shuts down when the peer has, and nothing is left to send. */
    method ShutdownIfDone()
      requires Valid()
      modifies this`state
      ensures Valid() && Value() == Step(old(Value()), CheckShutdown)
    {
      if state == Open && !isReading && !isWriting { state := ShutDown; }
    }
  }
}
