/**
 The asynchronous log collector (`LogCollector`): loggers append entries to a
 current chunk buffer under a mutex; one background thread takes the full
 buffers away in batches and writes them to the log file.

 A state machine.  One action is one critical section of `_mutex`, one atomic
 flag, or one step of the background thread on its own buffers.  A buffer is
 the sequence of lines copied into it; a unique pointer is an `Option`.
 */
module LogCollector {
  import opened Wrappers

  /** What reaches the file: a log entry, the text "flush", or the notice about dropped buffers. */
  datatype Line = Entry(id: int, size: nat) | FlushMark | DropNotice(count: nat)

  type Buffer = seq<Line>

  /** Bytes an empty chunk buffer has to spare: 4 MB minus the terminating NUL. */
  const CHUNK_SPARE: nat := 3_999_999

  /** The longest text an entry buffer can hold: 4 KB minus the terminating NUL. */
  const MAX_ENTRY: nat := 3_999

  /** `_DROP_THRESHOLD_OF_CHUNK_BUFFERS_TO_BE_WRITTEN`. */
  const DROP_THRESHOLD: nat := 16

  function SizeOf(line: Line): nat {
    match line
    case Entry(_, size) => size
    case FlushMark => 6
    case DropNotice(_) => 0                 // never goes into a buffer
  }

  function Length(buffer: Buffer): nat {
    if buffer == [] then 0 else Length(buffer[..|buffer| - 1]) + SizeOf(buffer[|buffer| - 1])
  }

  function Spare(buffer: Buffer): int {
    CHUNK_SPARE - Length(buffer)
  }

  /** `append` throws the data away when there is no room. */
  function Append(buffer: Buffer, line: Line): Buffer {
    if SizeOf(line) > Spare(buffer) then buffer else buffer + [line]
  }

  datatype Pc =
    | AtTop                                 // about to lock at the top of the loop
    | Waiting                               // inside `wait_for`, lock released
    | Trimming                              // owns a batch, size not checked yet
    | Writing(next: nat)                    // about to write buffer `next` of the batch
    | Recycling
    | Exited
    | Crashed                               // threw, or followed a null pointer

  /** What became of one batch: the buffers written and the buffers dropped. */
  datatype Outcome = Outcome(kept: seq<Buffer>, lost: seq<Buffer>)

  datatype State = State(
    current: Option<Buffer>,
    spare: Option<Buffer>,
    full: seq<Option<Buffer>>,
    spareForCurrent: Option<Buffer>,
    spareForSpare: Option<Buffer>,
    batch: seq<Option<Buffer>>,
    needFlush: bool,
    needStop: bool,
    pc: Pc,
    file: seq<Line>,
    taken: seq<Line>,                       // history: entries in the order the mutex admitted them
    outcomes: seq<Outcome>,                 // history: batches written so far
    lost: seq<Buffer>)                      // history: what was dropped from the present batch

  datatype Action =
    | TakeThisLog(entry: Line)
    | AskFlush
    | AskStop
    | Lock
    | Wake
    | Trim
    | WriteOne
    | EndWrite
    | Recycle

  predicate Enabled(s: State, a: Action) {
    match a
    case TakeThisLog(entry) => entry.Entry? && entry.size <= MAX_ENTRY
    case AskFlush => true
    case AskStop => true
    case Lock => s.pc.AtTop?
    case Wake => s.pc.Waiting?
    case Trim => s.pc.Trimming?
    case WriteOne => s.pc.Writing? && s.pc.next < |s.batch|
    case EndWrite => s.pc.Writing? && s.pc.next >= |s.batch|
    case Recycle => s.pc.Recycling?
  }

  function Crash(s: State): State {
    s.(pc := Crashed)
  }

  /** The rest of the background thread's critical section once some buffer is full. */
  function Collect(s: State): State {
    var s1 := s.(batch := s.full + [s.current], full := s.batch,
                 current := s.spareForCurrent, spareForCurrent := None);
    if s1.spare.Some? then Crash(s1)
    else s1.(spare := s1.spareForSpare, spareForSpare := None, pc := Trimming)
  }

  /** The spare buffer, stamped and pushed, makes a batch out of nothing but the current buffer. */
  function Stamped(s: State): State
    requires s.spare.Some?
  {
    s.(needFlush := false, full := [Some(Append(s.spare.value, FlushMark))], spare := None)
  }

  function Apply(s: State, a: Action): State
    requires Enabled(s, a)
  {
    match a
    case TakeThisLog(entry) =>
      if s.current.None? then Crash(s)
      else if SizeOf(entry) < Spare(s.current.value) then
        s.(current := Some(Append(s.current.value, entry)), taken := s.taken + [entry])
      else
        s.(full := s.full + [s.current],
           current := Some(Append(if s.spare.Some? then s.spare.value else [], entry)),
           spare := None, taken := s.taken + [entry])
    case AskFlush => s.(needFlush := true)
    case AskStop => s.(needStop := true)
    case Lock => if s.full == [] then s.(pc := Waiting) else Collect(s)
    case Wake =>
      if s.full != [] then Collect(s)
      else if s.needStop then
        if s.current.None? then Crash(s) else s.(file := s.file + s.current.value, pc := Exited)
      else if !s.needFlush then s.(pc := AtTop)
      else if s.spare.None? then Crash(s)
      else Collect(Stamped(s))
    case Trim =>
      if |s.batch| > DROP_THRESHOLD then
        s.(file := s.file + [DropNotice(|s.batch| - DROP_THRESHOLD)],
           batch := s.batch[..DROP_THRESHOLD], lost := Values(s.batch[DROP_THRESHOLD..]), pc := Writing(0))
      else s.(lost := [], pc := Writing(0))
    case WriteOne =>
      if s.batch[s.pc.next].None? then Crash(s)
      else s.(file := s.file + s.batch[s.pc.next].value, pc := Writing(s.pc.next + 1))
    case EndWrite => s.(pc := Recycling)
    case Recycle =>
      // resize(2) pads a shorter vector with null pointers
      var two := if |s.batch| >= 2 then s.batch[..2] else s.batch + seq(2 - |s.batch|, _ => None);
      if s.spareForCurrent.Some? || s.spareForSpare.Some? || two[0].None? || two[1].None? then Crash(s)
      else
        s.(spareForCurrent := Some([]), spareForSpare := Some([]), batch := [], pc := AtTop,
           outcomes := s.outcomes + [Outcome(Values(s.batch), s.lost)], lost := [])
  }

  /** The buffers behind the non-null pointers. */
  function Values(pointers: seq<Option<Buffer>>): seq<Buffer> {
    if pointers == [] then []
    else Values(pointers[..|pointers| - 1]) +
         if pointers[|pointers| - 1].Some? then [pointers[|pointers| - 1].value] else []
  }

  predicate Runs(s: State, actions: seq<Action>, s': State)
    decreases |actions|
  {
    if actions == [] then s == s'
    else Enabled(s, actions[0]) && Runs(Apply(s, actions[0]), actions[1..], s')
  }

  const INITIAL := State(Some([]), Some([]), [], Some([]), Some([]), [], false, false, AtTop, [], [], [], [])

  ghost predicate Reachable(s: State) {
    exists actions :: Runs(INITIAL, actions, s)
  }

  // ------------------------------------------------------------ specification

  function Lines(buffers: seq<Buffer>): seq<Line> {
    if buffers == [] then [] else Lines(buffers[..|buffers| - 1]) + buffers[|buffers| - 1]
  }

  function Entries(lines: seq<Line>): seq<Line> {
    if lines == [] then []
    else Entries(lines[..|lines| - 1]) + if lines[|lines| - 1].Entry? then [lines[|lines| - 1]] else []
  }

  /** What the batches put into the file: the notice, if any, and then the kept buffers whole. */
  function FileOf(outcomes: seq<Outcome>): seq<Line> {
    if outcomes == [] then []
    else
      var last := outcomes[|outcomes| - 1];
      FileOf(outcomes[..|outcomes| - 1]) + Notice(last.lost) + Lines(last.kept)
  }

  function Notice(lost: seq<Buffer>): seq<Line> {
    if lost == [] then [] else [DropNotice(|lost|)]
  }

  /** Everything the batches carried away, in order: kept buffers, then dropped ones. */
  function CarriedBy(outcomes: seq<Outcome>): seq<Line> {
    if outcomes == [] then []
    else
      var last := outcomes[|outcomes| - 1];
      CarriedBy(outcomes[..|outcomes| - 1]) + Lines(last.kept) + Lines(last.lost)
  }

  /** What the background thread has or had. */
  function Gathered(s: State): seq<Line> {
    CarriedBy(s.outcomes) + Lines(Values(s.batch)) + Lines(s.lost)
  }

  /** Every line admitted so far and where it is now, oldest first. */
  function Stream(s: State): seq<Line> {
    Gathered(s) + Lines(Values(s.full)) + (if s.current.Some? then s.current.value else [])
  }

  // ---------------------------------------------------------------- invariant

  /** Points to a buffer whose text fits. */
  predicate Holds(pointer: Option<Buffer>) {
    pointer.Some? && Length(pointer.value) <= CHUNK_SPARE
  }

  predicate AllHold(pointers: seq<Option<Buffer>>) {
    forall k :: 0 <= k < |pointers| ==> Holds(pointers[k])
  }

  /** What the background thread holds: two empty buffers, or a batch to make them from. */
  predicate BackgroundOk(pc: Pc, forCurrent: Option<Buffer>, forSpare: Option<Buffer>, batch: seq<Option<Buffer>>) {
    AllHold(batch) &&
    match pc
    case AtTop => forCurrent == Some([]) && forSpare == Some([]) && batch == []
    case Waiting => forCurrent == Some([]) && forSpare == Some([]) && batch == []
    case Trimming => forCurrent.None? && forSpare.None? && 2 <= |batch|
    case Writing(next) => forCurrent.None? && forSpare.None? && 2 <= |batch| <= DROP_THRESHOLD && next <= |batch|
    case Recycling => forCurrent.None? && forSpare.None? && 2 <= |batch| <= DROP_THRESHOLD
    case Exited => batch == []
    case Crashed => false
  }

  /** Which slots hold a buffer. */
  predicate SlotsOk(s: State) {
    && Holds(s.current) && AllHold(s.full)
    && (s.spare.Some? <==> s.full == [])
    && (s.spare.Some? ==> s.spare.value == [])
    && BackgroundOk(s.pc, s.spareForCurrent, s.spareForSpare, s.batch)
  }

  predicate OutcomesOk(outcomes: seq<Outcome>) {
    forall k :: 0 <= k < |outcomes| ==>
      2 <= |outcomes[k].kept| <= DROP_THRESHOLD && (outcomes[k].lost != [] ==> |outcomes[k].kept| == DROP_THRESHOLD)
  }

  predicate FileOk(s: State) {
    && OutcomesOk(s.outcomes)
    && match s.pc
       case Writing(next) =>
         && next <= |s.batch|
         && s.file == FileOf(s.outcomes) + Notice(s.lost) + Lines(Values(s.batch[..next]))
         && (s.lost != [] ==> |s.batch| == DROP_THRESHOLD)
       case Recycling =>
         && s.file == FileOf(s.outcomes) + Notice(s.lost) + Lines(Values(s.batch))
         && (s.lost != [] ==> |s.batch| == DROP_THRESHOLD)
       case Exited => s.lost == []
       case _ => s.file == FileOf(s.outcomes) && s.lost == []
  }

  predicate Inv(s: State) {
    SlotsOk(s) && FileOk(s) && Entries(Stream(s)) == s.taken && AllLogged(Stream(s))
  }

  lemma AppendFits(buffer: Buffer, line: Line)
    requires Length(buffer) <= CHUNK_SPARE
    ensures Length(Append(buffer, line)) <= CHUNK_SPARE
    ensures SizeOf(line) <= Spare(buffer) ==> Append(buffer, line) == buffer + [line]
  {
    assert (buffer + [line])[..|buffer|] == buffer;
  }

  /** Taking a batch never meets a full spare slot, and leaves both recycled slots empty. */
  lemma CollectSlots(s: State)
    requires s.pc.AtTop? || s.pc.Waiting?
    requires SlotsOk(s) && s.full != []
    ensures SlotsOk(Collect(s)) && Collect(s).pc.Trimming?
  {
  }

  lemma StampedSlots(s: State)
    requires SlotsOk(s) && s.full == [] && s.pc.Waiting?
    ensures SlotsOk(Stamped(s)) && Stamped(s).full == [Some([FlushMark])]
  {
    AppendFits([], FlushMark);
  }

  /** What the critical section of a logger does to the slots. */
  lemma TakeEffect(s: State, entry: Line)
    requires SlotsOk(s) && Enabled(s, TakeThisLog(entry))
    ensures Apply(s, TakeThisLog(entry)).(taken := s.taken) ==
      if SizeOf(entry) < Spare(s.current.value) then s.(current := Some(s.current.value + [entry]))
      else s.(full := s.full + [s.current], current := Some([entry]), spare := None)
  {
    AppendFits(s.current.value, entry);
    AppendFits([], entry);
    EmptyHolds();
  }

  lemma PushHolds(pointers: seq<Option<Buffer>>, pointer: Option<Buffer>)
    requires AllHold(pointers) && Holds(pointer)
    ensures AllHold(pointers + [pointer])
  {
  }

  lemma TakeSlots(s: State, entry: Line)
    requires SlotsOk(s) && Enabled(s, TakeThisLog(entry))
    ensures SlotsOk(Apply(s, TakeThisLog(entry)))
  {
    TakeEffect(s, entry);
    AppendFits(s.current.value, entry);
    AppendFits([], entry);
    EmptyHolds();
    PushHolds(s.full, s.current);
    hide Apply, Length, Append, BackgroundOk, AllHold;
    var s' := Apply(s, TakeThisLog(entry));
    assert s' == s'.(taken := s.taken).(taken := s'.taken);
  }

  lemma SlotsStep(s: State, a: Action)
    requires SlotsOk(s) && Enabled(s, a)
    ensures SlotsOk(Apply(s, a))
  {
    hide Append, Length, Collect, Values;
    match a
    case TakeThisLog(entry) => TakeSlots(s, entry);
    case Lock => if s.full != [] { CollectSlots(s); }
    case Wake =>
      if s.full != [] { CollectSlots(s); }
      else if !s.needStop && s.needFlush { StampedSlots(s); CollectSlots(Stamped(s)); }
    case Recycle => EmptyHolds();
    case _ =>
  }

  lemma EmptyHolds()
    ensures Length([]) == 0
  {
  }

  // ------------------------------------------------- lines of several buffers

  lemma {:induction false} ValuesConcat(a: seq<Option<Buffer>>, b: seq<Option<Buffer>>)
    ensures Values(a + b) == Values(a) + Values(b)
  {
    if b == [] {
      assert a + b == a;
    } else {
      ValuesConcat(a, b[..|b| - 1]);
      assert (a + b)[..|a + b| - 1] == a + b[..|b| - 1] && (a + b)[|a + b| - 1] == b[|b| - 1];
    }
  }

  lemma {:induction false} LinesConcat(a: seq<Buffer>, b: seq<Buffer>)
    ensures Lines(a + b) == Lines(a) + Lines(b)
  {
    if b == [] {
      assert a + b == a;
    } else {
      LinesConcat(a, b[..|b| - 1]);
      assert (a + b)[..|a + b| - 1] == a + b[..|b| - 1] && (a + b)[|a + b| - 1] == b[|b| - 1];
    }
  }

  lemma {:induction false} EntriesConcat(a: seq<Line>, b: seq<Line>)
    ensures Entries(a + b) == Entries(a) + Entries(b)
  {
    if b == [] {
      assert a + b == a;
    } else {
      EntriesConcat(a, b[..|b| - 1]);
      assert (a + b)[..|a + b| - 1] == a + b[..|b| - 1] && (a + b)[|a + b| - 1] == b[|b| - 1];
    }
  }

  lemma {:induction false} ValuesCount(pointers: seq<Option<Buffer>>)
    requires AllHold(pointers)
    ensures |Values(pointers)| == |pointers|
  {
    if pointers != [] { ValuesCount(pointers[..|pointers| - 1]); }
  }

  /** Lines of the buffers behind a vector, split at any point. */
  lemma LinesSplit(pointers: seq<Option<Buffer>>, k: nat)
    requires k <= |pointers|
    ensures Lines(Values(pointers)) == Lines(Values(pointers[..k])) + Lines(Values(pointers[k..]))
  {
    assert pointers == pointers[..k] + pointers[k..];
    ValuesConcat(pointers[..k], pointers[k..]);
    LinesConcat(Values(pointers[..k]), Values(pointers[k..]));
  }

  lemma LinesPush(pointers: seq<Option<Buffer>>, buffer: Buffer)
    ensures Lines(Values(pointers + [Some(buffer)])) == Lines(Values(pointers)) + buffer
  {
    assert (pointers + [Some(buffer)])[..|pointers|] == pointers;
    ValuesConcat(pointers, [Some(buffer)]);
    var values := Values(pointers) + [buffer];
    assert values[..|values| - 1] == Values(pointers);
  }

  // --------------------------------------------------------------- each step

  lemma TrimFile(s: State)
    requires SlotsOk(s) && FileOk(s) && s.pc.Trimming?
    ensures FileOk(Apply(s, Trim))
  {
    hide FileOf, Length;
    var s' := Apply(s, Trim);
    assert s'.batch[..0] == [];
    if |s.batch| > DROP_THRESHOLD { ValuesCount(s.batch[DROP_THRESHOLD..]); }
  }

  lemma WriteFile(s: State)
    requires SlotsOk(s) && FileOk(s) && Enabled(s, WriteOne)
    ensures FileOk(Apply(s, WriteOne))
  {
    hide FileOf, Length, Lines, Values, Notice;
    var k := s.pc.next;
    assert s.batch[..k + 1] == s.batch[..k] + [Some(s.batch[k].value)];
    LinesPush(s.batch[..k], s.batch[k].value);
    var prefix, written := FileOf(s.outcomes) + Notice(s.lost), Lines(Values(s.batch[..k]));
    assert (prefix + written) + s.batch[k].value == prefix + (written + s.batch[k].value);
  }

  lemma RecycleFile(s: State)
    requires SlotsOk(s) && FileOk(s) && Enabled(s, Recycle)
    ensures FileOk(Apply(s, Recycle))
  {
    hide Length, Lines, Values, Notice;
    ValuesCount(s.batch);
    var s' := Apply(s, Recycle);
    assert s'.outcomes[..|s.outcomes|] == s.outcomes;
  }

  lemma QuietFile(s: State, a: Action)
    requires SlotsOk(s) && FileOk(s) && Enabled(s, a) && !a.Trim? && !a.WriteOne? && !a.Recycle?
    ensures FileOk(Apply(s, a))
  {
    hide FileOf, Length, Lines, Values, Notice, Append, SizeOf, Spare, OutcomesOk;
    if a.EndWrite? { assert s.batch[..s.pc.next] == s.batch; }
  }

  lemma FileStep(s: State, a: Action)
    requires SlotsOk(s) && FileOk(s) && Enabled(s, a)
    ensures FileOk(Apply(s, a))
  {
    hide FileOk, SlotsOk, Apply;
    match a
    case Trim => TrimFile(s);
    case WriteOne => WriteFile(s);
    case Recycle => RecycleFile(s);
    case _ => QuietFile(s, a);
  }

  /** The stream up to the current buffer. */
  function Settled(s: State): seq<Line> {
    Gathered(s) + Lines(Values(s.full))
  }

  /** Nothing but entries and whole flush marks. */
  predicate AllLogged(lines: seq<Line>) {
    forall k :: 0 <= k < |lines| ==> lines[k].Entry? || lines[k].FlushMark?
  }

  lemma MarkIsLogged()
    ensures AllLogged([FlushMark])
  {
  }

  lemma LoggedConcat(a: seq<Line>, b: seq<Line>)
    ensures AllLogged(a + b) <==> AllLogged(a) && AllLogged(b)
  {
    forall k | 0 <= k < |a| ensures (a + b)[k] == a[k] {}
    forall k | 0 <= k < |b| ensures (a + b)[|a| + k] == b[k] {}
  }

  /** Replacing the current buffer keeps its lines, now in the full list. */
  lemma ReplacedStream(s: State, first: Buffer)
    requires s.current.Some?
    ensures Stream(s.(full := s.full + [s.current], current := Some(first), spare := None)) == Stream(s) + first
  {
    var here := s.current.value;
    LinesPush(s.full, here);
    hide Length, Lines, Values, CarriedBy;
    var before := CarriedBy(s.outcomes) + Lines(Values(s.batch)) + Lines(s.lost);
    assert s.full + [s.current] == s.full + [Some(here)];
    assert before + (Lines(Values(s.full)) + here) == before + Lines(Values(s.full)) + here;
  }

  lemma TakeStream(s: State, entry: Line)
    requires SlotsOk(s) && Enabled(s, TakeThisLog(entry))
    ensures Stream(Apply(s, TakeThisLog(entry))) == Stream(s) + [entry]
  {
    TakeEffect(s, entry);
    ReplacedStream(s, [entry]);
    var s' := Apply(s, TakeThisLog(entry));
    var before, here := Settled(s), s.current.value;
    assert before + (here + [entry]) == before + here + [entry];
    hide Length, Lines, Values, CarriedBy, Apply, SlotsOk;
    SameStream(s', s'.(taken := s.taken));
  }

  lemma CollectStream(s: State)
    requires s.pc.AtTop? || s.pc.Waiting?
    requires SlotsOk(s) && s.full != [] && s.lost == []
    ensures Stream(Collect(s)) == Stream(s)
  {
    LinesPush(s.full, s.current.value);
    assert Values([]) == [] && Lines([]) == [];
    hide Append, Length, Lines, Values, CarriedBy, AllHold;
    assert s.full + [s.current] == s.full + [Some(s.current.value)];
    var before, full, here := CarriedBy(s.outcomes), Lines(Values(s.full)), s.current.value;
    assert before + (full + here) == before + full + here;
    assert Stream(s) == before + full + here;
    assert Stream(Collect(s)) == before + (full + here);
  }

  lemma StampedStream(s: State)
    requires SlotsOk(s) && s.full == [] && s.pc.Waiting? && s.lost == []
    ensures Entries(Stream(Stamped(s))) == Entries(Stream(s))
    ensures AllLogged(Stream(s)) ==> AllLogged(Stream(Stamped(s)))
  {
    hide AllLogged;
    StampedSlots(s);
    LinesPush([], [FlushMark]);
    assert [] + [Some([FlushMark])] == [Some([FlushMark])];
    assert Values([]) == [] && Lines([]) == [];
    var before := CarriedBy(s.outcomes);
    assert Stream(Stamped(s)) == before + ([FlushMark] + s.current.value);
    assert Stream(s) == before + s.current.value;
    hide Stream, Settled, Lines, Values, CarriedBy, SlotsOk;
    LoggedConcat(before, [FlushMark] + s.current.value);
    LoggedConcat([FlushMark], s.current.value);
    LoggedConcat(before, s.current.value);
    assert AllLogged([FlushMark]) by { MarkIsLogged(); }
    EntriesConcat(before, [FlushMark] + s.current.value);
    EntriesConcat([FlushMark], s.current.value);
    EntriesConcat(before, s.current.value);
  }

  lemma CutBatch(before: seq<Line>, batch: seq<Option<Buffer>>, k: nat)
    requires k <= |batch|
    ensures before + Lines(Values(batch)) + Lines([]) ==
      before + Lines(Values(batch[..k])) + Lines(Values(batch[k..]))
  {
    LinesSplit(batch, k);
    assert Lines([]) == [];
    hide Lines, Values;
    Regroup(before, Lines(Values(batch[..k])), Lines(Values(batch[k..])));
    assert before + Lines(Values(batch)) + [] == before + Lines(Values(batch));
  }

  lemma TrimGathers(s: State)
    requires SlotsOk(s) && s.pc.Trimming? && s.lost == []
    ensures Gathered(Apply(s, Trim)) == Gathered(s)
  {
    if |s.batch| > DROP_THRESHOLD { CutBatch(CarriedBy(s.outcomes), s.batch, DROP_THRESHOLD); }
    hide SlotsOk, Lines, Values, CarriedBy;
  }

  lemma EndBatch(outcomes: seq<Outcome>, kept: seq<Buffer>, lost: seq<Buffer>)
    ensures CarriedBy(outcomes + [Outcome(kept, lost)]) + Lines([]) + Lines([]) ==
      CarriedBy(outcomes) + Lines(kept) + Lines(lost)
  {
    var more := outcomes + [Outcome(kept, lost)];
    assert more[..|outcomes|] == outcomes && Lines([]) == [];
    assert CarriedBy(more) == CarriedBy(outcomes) + Lines(kept) + Lines(lost);
    hide CarriedBy, Lines;
    assert CarriedBy(more) + [] + [] == CarriedBy(more);
  }

  lemma RecycleGathers(s: State)
    requires SlotsOk(s) && Enabled(s, Recycle)
    ensures Gathered(Apply(s, Recycle)) == Gathered(s)
  {
    assert Values([]) == [];
    hide Lines, Values, CarriedBy, Length, AllHold, Holds;
    EndBatch(s.outcomes, Values(s.batch), s.lost);
    var s' := Apply(s, Recycle);
    assert s'.batch == [] && s'.lost == [] && s'.outcomes == s.outcomes + [Outcome(Values(s.batch), s.lost)] by {
      RecycleEffect(s);
    }
    hide Apply;
  }

  lemma RecycleEffect(s: State)
    requires SlotsOk(s) && Enabled(s, Recycle)
    ensures Apply(s, Recycle) == s.(spareForCurrent := Some([]), spareForSpare := Some([]), batch := [], pc := AtTop,
                                    outcomes := s.outcomes + [Outcome(Values(s.batch), s.lost)], lost := [])
  {
    hide Values, Length;
  }

  lemma SameTail(s: State, s': State)
    requires Gathered(s') == Gathered(s) && s'.full == s.full && s'.current == s.current
    ensures Stream(s') == Stream(s)
  {
  }

  lemma TrimStream(s: State)
    requires SlotsOk(s) && s.pc.Trimming? && s.lost == []
    ensures Stream(Apply(s, Trim)) == Stream(s)
  {
    TrimGathers(s);
    hide Gathered, Stream, SlotsOk, Values;
    SameTail(s, Apply(s, Trim));
  }

  lemma RecycleStream(s: State)
    requires SlotsOk(s) && Enabled(s, Recycle)
    ensures Stream(Apply(s, Recycle)) == Stream(s)
  {
    RecycleGathers(s);
    hide Gathered, Stream, Values, Length;
    SameTail(s, Apply(s, Recycle));
  }

  lemma SameStream(s: State, s': State)
    requires s'.outcomes == s.outcomes && s'.batch == s.batch && s'.lost == s.lost
    requires s'.full == s.full && s'.current == s.current
    ensures Stream(s') == Stream(s)
  {
  }

  lemma WakeStream(s: State)
    requires SlotsOk(s) && s.pc.Waiting? && s.lost == []
    ensures Entries(Stream(Apply(s, Wake))) == Entries(Stream(s)) && Apply(s, Wake).taken == s.taken
    ensures AllLogged(Stream(s)) ==> AllLogged(Stream(Apply(s, Wake)))
  {
    assert s.full == [] && s.needFlush ==> s.spare.Some?;
    hide Length, Lines, Values, Append, Stream, AllHold, Entries, CarriedBy;
    if s.full != [] {
      CollectStream(s);
    } else if !s.needStop && s.needFlush {
      StampedStream(s);
      StampedSlots(s);
      CollectStream(Stamped(s));
    } else {
      SameStream(s, Apply(s, Wake));
    }
  }

  /** The stream changes only by what a logger appends and by whole flush marks. */
  lemma StreamStep(s: State, a: Action)
    requires Inv(s) && Enabled(s, a)
    ensures Entries(Stream(Apply(s, a))) == Apply(s, a).taken && AllLogged(Stream(Apply(s, a)))
  {
    hide Length, Lines, Values, Append, Stream, Notice, OutcomesOk, AllHold, Spare, SizeOf, Entries, CarriedBy, FileOf;
    match a
    case TakeThisLog(entry) =>
      TakeStream(s, entry);
      TakeEffect(s, entry);
      EntriesConcat(Stream(s), [entry]);
      EntriesOfEntry(entry);
    case Lock => if s.full != [] { CollectStream(s); } else { SameStream(s, Apply(s, a)); }
    case Wake => WakeStream(s);
    case Trim => TrimStream(s);
    case Recycle => RecycleStream(s);
    case _ => SameStream(s, Apply(s, a));
  }

  lemma EntriesOfEntry(entry: Line)
    requires entry.Entry?
    ensures Entries([entry]) == [entry]
  {
    assert [entry][..0] == [];
  }

  lemma InvStep(s: State, a: Action)
    requires Inv(s) && Enabled(s, a)
    ensures Inv(Apply(s, a))
  {
    hide SlotsOk, FileOk, Stream, Apply;
    SlotsStep(s, a);
    FileStep(s, a);
    StreamStep(s, a);
  }

  // --------------------------------------------------------------- whole runs

  lemma {:induction false} RunInv(s: State, actions: seq<Action>, s': State)
    requires Inv(s) && Runs(s, actions, s')
    ensures Inv(s')
    decreases |actions|
  {
    hide Inv, Apply;
    if actions != [] {
      InvStep(s, actions[0]);
      RunInv(Apply(s, actions[0]), actions[1..], s');
    }
  }

  lemma ReachableInv(s: State)
    requires Reachable(s)
    ensures Inv(s)
  {
    var actions :| Runs(INITIAL, actions, s);
    assert Inv(INITIAL);
    RunInv(INITIAL, actions, s);
  }

  /**
   Both "never reaches here" throws are unreachable, no null buffer is followed,
   the spare slot is full exactly when the list of full buffers is empty, a
   batch always has two buffers to recycle, and no buffer overflows.
   */
  lemma NeverReachesTheThrows(s: State)
    requires Reachable(s)
    ensures !s.pc.Crashed?
    ensures s.spare.Some? <==> s.full == []
    ensures s.pc.Trimming? || s.pc.Writing? || s.pc.Recycling? ==> 2 <= |s.batch|
    ensures Holds(s.current) && AllHold(s.full) && AllHold(s.batch)
  {
    ReachableInv(s);
  }

  /**
   Conservation of the log, in every interleaving: the entries in the order the
   mutex admitted them are those the past batches carried away, those in the
   present batch, in the full list and in the current buffer, with nothing but
   whole flush marks between them.
   */
  lemma EntriesAreConserved(s: State)
    requires Reachable(s)
    ensures s.current.Some?
    ensures
      var stream := CarriedBy(s.outcomes) + Lines(Values(s.batch)) + Lines(s.lost) + Lines(Values(s.full))
                    + s.current.value;
      s.taken == Entries(stream) && AllLogged(stream)
  {
    ReachableInv(s);
  }

  /**
   Between batches the file holds every batch whole, but for the buffers past
   the sixteenth of a batch, whose number the notice in front of it tells.
   */
  lemma FileHoldsAllButCountedDrops(s: State)
    requires Reachable(s) && (s.pc.AtTop? || s.pc.Waiting?)
    ensures s.file == FileOf(s.outcomes) && s.batch == [] && s.lost == []
    ensures forall k :: 0 <= k < |s.outcomes| && s.outcomes[k].lost != [] ==> |s.outcomes[k].kept| == DROP_THRESHOLD
  {
    ReachableInv(s);
  }

  lemma {:induction false} NoDropsMeansNothingMissing(outcomes: seq<Outcome>)
    requires forall k :: 0 <= k < |outcomes| ==> outcomes[k].lost == []
    ensures FileOf(outcomes) == CarriedBy(outcomes)
  {
    if outcomes != [] { NoDropsMeansNothingMissing(outcomes[..|outcomes| - 1]); }
  }

  lemma OnlyWakeExits(s: State, a: Action)
    requires Enabled(s, a) && !s.pc.Exited? && Apply(s, a).pc.Exited?
    ensures a.Wake? && s.full == [] && s.current.Some?
    ensures Apply(s, a) == s.(file := s.file + s.current.value, pc := Exited)
  {
    hide Append, Length, Lines, Values, SizeOf, Spare;
  }

  /** Without drops the file and the stream are the same at exit. */
  lemma NothingMissingAtExit(s: State, here: Buffer)
    requires s.file == FileOf(s.outcomes) + here && s.taken == Entries(CarriedBy(s.outcomes) + here)
    requires forall k :: 0 <= k < |s.outcomes| ==> s.outcomes[k].lost == []
    ensures Entries(s.file) == s.taken
  {
    hide Entries;
    NoDropsMeansNothingMissing(s.outcomes);
  }

  lemma StreamAtExit(s: State)
    requires Inv(s) && s.pc.Waiting? && s.full == []
    ensures s.current.Some? && s.batch == [] && s.lost == [] && s.file == FileOf(s.outcomes)
    ensures s.taken == Entries(CarriedBy(s.outcomes) + s.current.value)
  {
    hide FileOf, CarriedBy, Entries, Length, AllHold, OutcomesOk, AllLogged;
    assert Values([]) == [] && Lines([]) == [];
    assert Stream(s) == CarriedBy(s.outcomes) + s.current.value;
  }

  /** The background thread exits with nothing left behind that was taken before. */
  lemma ExitLeavesNothingBehind(s: State, a: Action)
    requires Reachable(s) && Enabled(s, a) && !s.pc.Exited? && Apply(s, a).pc.Exited?
    ensures var s' := Apply(s, a);
      && s'.current.Some? && s'.full == [] && s'.batch == [] && s'.lost == []
      && s'.file == FileOf(s'.outcomes) + s'.current.value
      && s'.taken == Entries(CarriedBy(s'.outcomes) + s'.current.value)
      && ((forall k :: 0 <= k < |s'.outcomes| ==> s'.outcomes[k].lost == []) ==> Entries(s'.file) == s'.taken)
  {
    OnlyWakeExits(s, a);
    ReachableInv(s);
    StreamAtExit(s);
    hide Apply, Inv, FileOf, CarriedBy, Entries;
    var s' := Apply(s, a);
    assert s'.current.Some?;
    if forall k :: 0 <= k < |s'.outcomes| ==> s'.outcomes[k].lost == [] {
      NothingMissingAtExit(s', s'.current.value);
    }
  }

  // ------------------------------------------------------------ what was asked for

  /** The entries given to `take_this_log`, in the order the mutex admitted them. */
  function AdmittedBy(actions: seq<Action>): seq<Line>
    decreases |actions|
  {
    if actions == [] then []
    else (if actions[0].TakeThisLog? then [actions[0].entry] else []) + AdmittedBy(actions[1..])
  }

  predicate AsksToStop(actions: seq<Action>) {
    exists k :: 0 <= k < |actions| && actions[k].AskStop?
  }

  lemma AskedStep(s: State, a: Action)
    requires SlotsOk(s) && Enabled(s, a)
    ensures Apply(s, a).taken == s.taken + if a.TakeThisLog? then [a.entry] else []
    ensures Apply(s, a).needStop <==> s.needStop || a.AskStop?
  {
    hide Append, Length, Values;
  }

  lemma AdmittedFirst(before: seq<Line>, actions: seq<Action>)
    requires actions != []
    ensures before + AdmittedBy(actions) ==
      (before + if actions[0].TakeThisLog? then [actions[0].entry] else []) + AdmittedBy(actions[1..])
  {
    var first := if actions[0].TakeThisLog? then [actions[0].entry] else [];
    assert AdmittedBy(actions) == first + AdmittedBy(actions[1..]);
    Regroup(before, first, AdmittedBy(actions[1..]));
  }

  lemma {:induction false} AskedRun(s: State, actions: seq<Action>, s': State)
    requires SlotsOk(s) && Runs(s, actions, s')
    ensures s'.taken == s.taken + AdmittedBy(actions)
    ensures s'.needStop <==> s.needStop || AsksToStop(actions)
    decreases |actions|
  {
    hide SlotsOk, Apply, Enabled, AdmittedBy;
    if actions == [] {
      assert s.taken + AdmittedBy([]) == s.taken by { NothingAdmitted(s.taken); }
    } else {
      AskedStep(s, actions[0]);
      SlotsStep(s, actions[0]);
      AskedRun(Apply(s, actions[0]), actions[1..], s');
      AdmittedFirst(s.taken, actions);
      if AsksToStop(actions[1..]) {
        var k :| 0 <= k < |actions[1..]| && actions[1..][k].AskStop?;
        assert actions[k + 1].AskStop?;
      }
      if AsksToStop(actions) && !actions[0].AskStop? {
        var k :| 0 <= k < |actions| && actions[k].AskStop?;
        assert actions[1..][k - 1].AskStop?;
      }
    }
  }

  lemma NothingAdmitted(before: seq<Line>)
    ensures before + AdmittedBy([]) == before
  {
  }

  /**
   A logger's entry goes whole to the end of the current buffer if that leaves a byte of its
   3,999,999 to spare, and else is the first in the spare or a new one, the other being full.
   */
  lemma EntryIsKeptWhole(s: State, entry: Line)
    requires Reachable(s) && Enabled(s, TakeThisLog(entry))
    ensures
      && s.current.Some?
      && var s' := Apply(s, TakeThisLog(entry));
      if Length(s.current.value) + entry.size < 3_999_999 then
        s'.current == Some(s.current.value + [entry]) && s'.full == s.full && s'.spare == s.spare
      else s'.current == Some([entry]) && s'.full == s.full + [s.current] && s'.spare == None
  {
    hide Append, Length, FileOk, Stream, AllLogged, Entries, Values;
    ReachableInv(s);
    TakeEffect(s, entry);
    hide Apply, SlotsOk;
  }

  /** Over any run, what was taken is what loggers gave, and a stop is wanted if and only if one was asked for. */
  lemma TakenIsWhatWasGiven(actions: seq<Action>, s: State)
    requires Runs(INITIAL, actions, s)
    ensures s.taken == AdmittedBy(actions)
    ensures s.needStop <==> AsksToStop(actions)
    ensures s.pc.Exited? ==> AsksToStop(actions)
  {
    assert Inv(INITIAL);
    AskedRun(INITIAL, actions, s);
    assert [] + AdmittedBy(actions) == AdmittedBy(actions);
    ExitedRun(INITIAL, actions, s);
  }

  lemma ExitedStep(s: State, a: Action)
    requires Enabled(s, a)
    ensures Apply(s, a).pc.Exited? ==> s.needStop || s.pc.Exited?
    ensures s.pc.Exited? && s.current.Some? ==> Apply(s, a).pc.Exited? && Apply(s, a).file == s.file
    ensures s.needStop ==> Apply(s, a).needStop
  {
    hide Append, Length, Values;
  }

  lemma {:induction false} ExitedRun(s: State, actions: seq<Action>, s': State)
    requires SlotsOk(s) && Runs(s, actions, s')
    ensures (s.pc.Exited? ==> s.needStop) ==> (s'.pc.Exited? ==> s'.needStop)
    ensures s.pc.Exited? ==> s'.pc.Exited? && s'.file == s.file
    decreases |actions|
  {
    assert s.current.Some?;
    hide SlotsOk, Apply, Enabled;
    if actions != [] {
      ExitedStep(s, actions[0]);
      SlotsStep(s, actions[0]);
      ExitedRun(Apply(s, actions[0]), actions[1..], s');
    }
  }

  // -------------------------------------------------------- the background thread

  /**
   What the background thread does with the mutex: it takes a batch if a buffer is full;
   otherwise it waits once, and then exits if a stop is wanted, or takes the current buffer
   if a flush is, which lowers that flag, or begins again.
   */
  lemma WhatIsDecided(s: State)
    requires Reachable(s)
    ensures s.pc.AtTop? ==> Apply(s, Lock).pc == if s.full != [] then Trimming else Waiting
    ensures s.pc.Waiting? ==>
      var s' := Apply(s, Wake);
      && (s'.pc.Exited? <==> s.full == [] && s.needStop)
      && (s'.pc.Trimming? <==> s.full != [] || (s.needFlush && !s.needStop))
      && (s'.pc.AtTop? <==> s.full == [] && !s.needStop && !s.needFlush)
      && (s'.needFlush <==> s.needFlush && (s.full != [] || s.needStop))
  {
    hide Append, Length, Values, FileOk, Stream, AllLogged, Entries;
    ReachableInv(s);
    if s.pc.Waiting? && s.full == [] && !s.needStop && s.needFlush { StampedSlots(s); }
  }

  /** The buffers of a batch that is taken now. */
  function BatchOf(s: State): seq<Option<Buffer>> {
    (if s.full != [] then s.full else [Some([FlushMark])]) + [s.current]
  }

  function Kept(batch: seq<Option<Buffer>>): seq<Option<Buffer>> {
    batch[..Min(16, |batch|)]
  }

  function Dropped(batch: seq<Option<Buffer>>): seq<Option<Buffer>> {
    batch[Min(16, |batch|)..]
  }

  /** A cycle that began with this batch is under way, or just over. */
  predicate InCycle(s: State, outcomes: seq<Outcome>, batch: seq<Option<Buffer>>) {
    match s.pc
    case Trimming => s.batch == batch && s.outcomes == outcomes && s.lost == []
    case Writing(_) => s.batch == Kept(batch) && s.lost == Values(Dropped(batch)) && s.outcomes == outcomes
    case Recycling => s.batch == Kept(batch) && s.lost == Values(Dropped(batch)) && s.outcomes == outcomes
    case AtTop => s.outcomes == outcomes + [Outcome(Values(Kept(batch)), Values(Dropped(batch)))]
    case _ => false
  }

  lemma CycleStep(s: State, a: Action, outcomes: seq<Outcome>, batch: seq<Option<Buffer>>)
    requires SlotsOk(s) && Enabled(s, a) && !a.Lock? && InCycle(s, outcomes, batch)
    ensures InCycle(Apply(s, a), outcomes, batch)
  {
    hide Append, Length;
    assert Values([]) == [];
    hide Values;
    match a
    case TakeThisLog(entry) => TakeKeepsBackground(s, entry);
    case Trim => TrimDrops(s);
    case _ => hide Kept, Dropped;
  }

  lemma TakeKeepsBackground(s: State, entry: Line)
    requires SlotsOk(s) && Enabled(s, TakeThisLog(entry))
    ensures
      var s' := Apply(s, TakeThisLog(entry));
      s'.pc == s.pc && s'.batch == s.batch && s'.outcomes == s.outcomes && s'.lost == s.lost
  {
    hide Append, Length, Values, BackgroundOk, AllHold;
  }

  lemma TrimDrops(s: State)
    requires s.pc.Trimming? && s.lost == []
    ensures
      var s' := Apply(s, Trim);
      && s'.pc.Writing? && s'.outcomes == s.outcomes
      && s'.batch == Kept(s.batch) && s'.lost == Values(Dropped(s.batch))
  {
    assert Values([]) == [];
    hide Values;
    if |s.batch| <= DROP_THRESHOLD { assert Kept(s.batch) == s.batch && Dropped(s.batch) == []; }
  }

  lemma {:induction false} CycleRun(
      s: State, actions: seq<Action>, s': State, outcomes: seq<Outcome>, batch: seq<Option<Buffer>>)
    requires SlotsOk(s) && Runs(s, actions, s') && InCycle(s, outcomes, batch)
    requires forall k :: 0 <= k < |actions| ==> !actions[k].Lock?
    ensures InCycle(s', outcomes, batch)
    decreases |actions|
  {
    hide SlotsOk, Apply, Enabled, InCycle;
    if actions != [] {
      CycleStep(s, actions[0], outcomes, batch);
      SlotsStep(s, actions[0]);
      CycleRun(Apply(s, actions[0]), actions[1..], s', outcomes, batch);
    }
  }

  lemma BatchIsTaken(s: State, a: Action)
    requires SlotsOk(s) && FileOk(s) && Enabled(s, a) && (a.Lock? || a.Wake?) && Apply(s, a).pc.Trimming?
    ensures InCycle(Apply(s, a), s.outcomes, BatchOf(s))
  {
    hide Length, Values, FileOf, Lines, Notice, OutcomesOk;
    assert s.lost == [];
    if s.full == [] { StampedSlots(s); }
    hide Append;
  }

  /**
   A cycle of the background thread, whatever loggers do meanwhile, adds to the file the
   first sixteen buffers of its batch whole and in order, the full ones and then the
   current one, with a notice before them if there are more.
   */
  lemma CycleWritesBatch(s: State, a: Action, actions: seq<Action>, s': State)
    requires Reachable(s) && Enabled(s, a) && (a.Lock? || a.Wake?) && Apply(s, a).pc.Trimming?
    requires Runs(Apply(s, a), actions, s') && (forall k :: 0 <= k < |actions| ==> !actions[k].Lock?) && s'.pc.AtTop?
    ensures
      var kept, lost := Values(Kept(BatchOf(s))), Values(Dropped(BatchOf(s)));
      && s'.file == s.file + Notice(lost) + Lines(kept)
      && s'.outcomes == s.outcomes + [Outcome(kept, lost)]
  {
    hide Apply, Runs, SlotsOk, FileOk, Stream, Entries, AllLogged, Values, Lines, FileOf, Notice, BatchOf;
    ReachableInv(s);
    InvStep(s, a);
    BatchIsTaken(s, a);
    CycleRun(Apply(s, a), actions, s', s.outcomes, BatchOf(s));
    RunInv(Apply(s, a), actions, s');
    hide Inv;
    FileBetween(s);
    FileBetween(s');
    FileOfMore(s.outcomes, Values(Kept(BatchOf(s))), Values(Dropped(BatchOf(s))));
  }

  lemma FileBetween(s: State)
    requires Inv(s) && (s.pc.AtTop? || s.pc.Waiting?)
    ensures s.file == FileOf(s.outcomes)
  {
    hide SlotsOk, Stream, Entries, AllLogged, FileOf;
  }

  lemma FileOfMore(outcomes: seq<Outcome>, kept: seq<Buffer>, lost: seq<Buffer>)
    ensures FileOf(outcomes + [Outcome(kept, lost)]) == FileOf(outcomes) + Notice(lost) + Lines(kept)
  {
    hide Lines, Notice;
    assert (outcomes + [Outcome(kept, lost)])[..|outcomes|] == outcomes;
  }

  predicate IsBackground(a: Action) {
    a.Lock? || a.Wake? || a.Trim? || a.WriteOne? || a.EndWrite? || a.Recycle?
  }

  /** At each point it has one thing to do next. */
  lemma BackgroundIsForced(s: State, a: Action)
    requires Enabled(s, a) && IsBackground(a)
    ensures match s.pc
      case AtTop => a.Lock?
      case Waiting => a.Wake?
      case Trimming => a.Trim?
      case Writing(next) => if next < |s.batch| then a.WriteOne? else a.EndWrite?
      case Recycling => a.Recycle?
      case _ => false
  {
  }

  /** How far the cycle is from its end. */
  function Left(s: State): nat {
    match s.pc
    case Trimming => |s.batch| + 3
    case Writing(next) => if next < |s.batch| then |s.batch| - next + 2 else 2
    case Recycling => 1
    case _ => 0
  }

  /** The background thread is never stuck: by itself it gets from its batch back to the top of its loop. */
  lemma {:induction false} CycleEnds(s: State) returns (actions: seq<Action>, s': State)
    requires SlotsOk(s) && (s.pc.Trimming? || s.pc.Writing? || s.pc.Recycling? || s.pc.AtTop?)
    ensures Runs(s, actions, s') && (forall k :: 0 <= k < |actions| ==> IsBackground(actions[k])) && s'.pc.AtTop?
    decreases Left(s)
  {
    hide Append, Length, Values;
    if s.pc.AtTop? {
      actions, s' := [], s;
    } else {
      var a := match s.pc
        case Trimming => Trim
        case Writing(next) => if next < |s.batch| then WriteOne else EndWrite
        case _ => Recycle;
      SlotsStep(s, a);
      var s1 := Apply(s, a);
      assert Left(s1) < Left(s) && (s1.pc.Writing? || s1.pc.Recycling? || s1.pc.AtTop?);
      hide Apply, SlotsOk, Left;
      var later;
      later, s' := CycleEnds(s1);
      actions := [a] + later;
      assert actions[1..] == later;
    }
  }

  // ------------------------------------------------------------------------ flush

  /** What has been taken from the loggers for writing. */
  function Collected(s: State): seq<Line> {
    Entries(Gathered(s))
  }

  /** Taking a batch takes everything there is. */
  lemma CollectTakesAll(s: State, a: Action)
    requires Inv(s) && Enabled(s, a) && (a.Lock? || a.Wake?) && Apply(s, a).pc.Trimming?
    ensures Collected(Apply(s, a)) == Apply(s, a).taken == s.taken
  {
    assert Values([]) == [] && Lines([]) == [];
    hide Apply, SlotsOk, FileOk, AllLogged, Values, Lines, Entries, Gathered;
    InvStep(s, a);
    AllIsCollected(s, a);
    var s' := Apply(s, a);
    assert Gathered(s') + [] + [] == Gathered(s');
    assert Stream(s') == Gathered(s');
  }

  lemma AllIsCollected(s: State, a: Action)
    requires SlotsOk(s) && FileOk(s) && Enabled(s, a) && (a.Lock? || a.Wake?) && Apply(s, a).pc.Trimming?
    ensures var s' := Apply(s, a); s'.full == [] && s'.current == Some([]) && s'.taken == s.taken
  {
    hide Append, Length, Values, Lines, FileOf, Notice, OutcomesOk;
  }

  lemma EntriesPrefix(a: seq<Line>, b: seq<Line>)
    ensures Entries(a) <= Entries(a + b)
  {
    EntriesConcat(a, b);
  }

  /** What has been collected stays collected. */
  lemma CollectedStep(s: State, a: Action)
    requires Inv(s) && Enabled(s, a)
    ensures Collected(s) <= Collected(Apply(s, a)) && s.taken <= Apply(s, a).taken
    ensures s.needFlush && !Apply(s, a).needFlush ==> Collected(Apply(s, a)) == Apply(s, a).taken
  {
    AskedStep(s, a);
    if (a.Lock? || a.Wake?) && Apply(s, a).pc.Trimming? {
      CollectTakesAll(s, a);
      CollectedIsTaken(s);
    } else {
      assert Apply(s, a).needFlush == s.needFlush || a.AskFlush? by { OtherKeepFlush(s, a); }
      match a
      case Trim => TrimGathers(s);
      case Recycle => RecycleGathers(s);
      case _ => OtherKeepCollected(s, a);
    }
  }

  lemma CollectedIsTaken(s: State)
    requires Inv(s)
    ensures Collected(s) <= s.taken
  {
    hide SlotsOk, FileOk, AllLogged, Values, Lines, Gathered, Entries;
    var all := Gathered(s);
    var here := if s.current.Some? then s.current.value else [];
    Regroup(all, Lines(Values(s.full)), here);
    EntriesPrefix(all, Lines(Values(s.full)) + here);
  }

  lemma OtherKeepFlush(s: State, a: Action)
    requires SlotsOk(s) && Enabled(s, a) && !((a.Lock? || a.Wake?) && Apply(s, a).pc.Trimming?)
    ensures Apply(s, a).needFlush == s.needFlush || a.AskFlush?
  {
    hide Append, Length, Values;
  }

  lemma OtherKeepCollected(s: State, a: Action)
    requires SlotsOk(s) && Enabled(s, a) && !a.Trim? && !a.Recycle?
    requires !((a.Lock? || a.Wake?) && Apply(s, a).pc.Trimming?)
    ensures Collected(Apply(s, a)) == Collected(s)
  {
    hide Append, Length, Values, Lines, CarriedBy, Entries;
  }

  lemma {:induction false} FlushRun(s: State, actions: seq<Action>, s': State, early: seq<Line>)
    requires Inv(s) && Runs(s, actions, s') && early <= s.taken && (s.needFlush || early <= Collected(s))
    ensures s'.needFlush || early <= Collected(s')
    decreases |actions|
  {
    hide Inv, Apply, Enabled, Collected;
    if actions != [] {
      CollectedStep(s, actions[0]);
      InvStep(s, actions[0]);
      FlushRun(Apply(s, actions[0]), actions[1..], s', early);
    }
  }

  /** A flush request is served: once its flag is down, everything taken before it has been collected for writing. */
  lemma FlushIsServed(s: State, actions: seq<Action>, s': State)
    requires Reachable(s) && Runs(Apply(s, AskFlush), actions, s') && !s'.needFlush
    ensures s.taken <= Collected(s')
  {
    ReachableInv(s);
    InvStep(s, AskFlush);
    FlushRun(Apply(s, AskFlush), actions, s', s.taken);
  }
}
