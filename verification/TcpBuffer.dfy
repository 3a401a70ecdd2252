/**
 The growing, compacting byte buffer (`MutableSizeTcpBuffer`).

 The backing string is an array whose length is the string's capacity, plus
 the string's size.  Every method is specified by the byte queue it implements
 (`Contents`) and by the offsets and capacity it leaves (`Shape`).
 */
module TcpBuffer {
  import opened Wrappers

  /** A byte; nothing here depends on its range. */
  type Byte = char

  /** Capacity of an empty string that still lives in its small-string storage. */
  const SMALL_CAPACITY: nat := 15

  // ----------------------------------------------------------------- searches

  predicate IsCrlf(s: seq<Byte>, i: int) {
    0 <= i && i + 1 < |s| && s[i] == '\r' && s[i + 1] == '\n'
  }

  predicate IsNewline(s: seq<Byte>, i: int) {
    0 <= i < |s| && s[i] == '\n'
  }

  /** The first position from `i` on that starts a CRLF. */
  function FindCrlf(s: seq<Byte>, i: nat := 0): (r: Option<nat>)
    ensures r.Some? ==> i <= r.value && IsCrlf(s, r.value) && forall j :: i <= j < r.value ==> !IsCrlf(s, j)
    ensures r.None? ==> forall j :: i <= j ==> !IsCrlf(s, j)
    decreases |s| - i
  {
    if i + 1 >= |s| then None else if IsCrlf(s, i) then Some(i) else FindCrlf(s, i + 1)
  }

  function FindNewline(s: seq<Byte>, i: nat := 0): (r: Option<nat>)
    ensures r.Some? ==> i <= r.value && IsNewline(s, r.value) && forall j :: i <= j < r.value ==> !IsNewline(s, j)
    ensures r.None? ==> forall j :: i <= j ==> !IsNewline(s, j)
    decreases |s| - i
  {
    if i >= |s| then None else if IsNewline(s, i) then Some(i) else FindNewline(s, i + 1)
  }

  /** A position is what the search returns exactly when it is the first match. */
  lemma FindCrlfIsFirst(s: seq<Byte>, i: nat)
    ensures FindCrlf(s) == Some(i) <==> IsCrlf(s, i) && forall j :: 0 <= j < i ==> !IsCrlf(s, j)
  {
  }

  // ------------------------------------------------------- offsets and capacity

  datatype Shape = Shape(capacity: nat, read: nat, write: nat)

  /** The shape of a new buffer. */
  function NewShape(): (shape: Shape)
    ensures IsShape(shape)
  {
    Shape(SMALL_CAPACITY, 0, 0)
  }

  predicate IsShape(shape: Shape) {
    shape.read <= shape.write <= shape.capacity && SMALL_CAPACITY <= shape.capacity
  }

  function Live(shape: Shape): nat
    requires IsShape(shape)
  {
    shape.write - shape.read
  }

  /** The offsets and the capacity after `_make_space(n)`. */
  function Extended(shape: Shape, n: nat): Shape
    requires IsShape(shape)
  {
    var Shape(capacity, read, write) := shape;
    if n == 0 then shape
    else if n <= capacity - write then Shape(capacity, read, write + n)
    else if n <= capacity - write + read then Shape(capacity, 0, write - read + n)
    else Shape(Max(write + n, 2 * capacity), read, write + n)
  }

  function Forwarded(shape: Shape, n: nat): Shape {
    shape.(read := Min(shape.read + n, shape.write))
  }

  /** Memory is reallocated only when what is live and what is new really do not fit. */
  lemma ReallocatesOnlyWhenFull(shape: Shape, n: nat)
    requires IsShape(shape)
    ensures IsShape(Extended(shape, n)) && Live(Extended(shape, n)) == Live(shape) + n
    ensures Extended(shape, n).capacity != shape.capacity <==> Live(shape) + n > shape.capacity
    ensures Extended(shape, n).capacity <= Max(shape.capacity, 2 * (Live(shape) + n))
    ensures Live(shape) + n > shape.capacity ==> Extended(shape, n).capacity >= 2 * shape.capacity
    ensures Extended(shape, n).read ==
      if shape.write + n > shape.capacity && Live(shape) + n <= shape.capacity then 0 else shape.read
  {
  }

  datatype Operation = Append(data: seq<Byte>) | Forward(count: nat)

  /** The byte queue the buffer stands for. */
  function QueueStep(queue: seq<Byte>, op: Operation): seq<Byte> {
    match op
    case Append(data) => queue + data
    case Forward(count) => queue[Min(count, |queue|)..]
  }

  function QueueAfter(queue: seq<Byte>, ops: seq<Operation>): seq<Byte>
    decreases |ops|
  {
    if ops == [] then queue else QueueAfter(QueueStep(queue, ops[0]), ops[1..])
  }

  /** The largest number of live bytes at any point of a run. */
  function PeakLive(queue: seq<Byte>, ops: seq<Operation>): nat
    decreases |ops|
  {
    if ops == [] then |queue| else Max(|queue|, PeakLive(QueueStep(queue, ops[0]), ops[1..]))
  }

  function ShapeStep(shape: Shape, op: Operation): Shape
    requires IsShape(shape)
  {
    match op
    case Append(data) => Extended(shape, |data|)
    case Forward(count) => Forwarded(shape, count)
  }

  function ShapeAfter(shape: Shape, ops: seq<Operation>): Shape
    requires IsShape(shape)
    decreases |ops|
  {
    if ops == [] then shape else ShapeAfter(ShapeStep(shape, ops[0]), ops[1..])
  }

  lemma {:induction false} CapacityOverRun(shape: Shape, queue: seq<Byte>, ops: seq<Operation>, bound: nat)
    requires IsShape(shape) && Live(shape) == |queue|
    requires shape.capacity <= Max(SMALL_CAPACITY, 2 * bound) && PeakLive(queue, ops) <= bound
    ensures IsShape(ShapeAfter(shape, ops)) && Live(ShapeAfter(shape, ops)) == |QueueAfter(queue, ops)|
    ensures ShapeAfter(shape, ops).capacity <= Max(SMALL_CAPACITY, 2 * bound)
    decreases |ops|
  {
    if ops != [] {
      var next := QueueStep(queue, ops[0]);
      assert |next| <= PeakLive(next, ops[1..]) <= bound;
      if ops[0].Append? { ReallocatesOnlyWhenFull(shape, |ops[0].data|); }
      CapacityOverRun(ShapeStep(shape, ops[0]), next, ops[1..], bound);
    }
  }

  /**
   Over any run from a new buffer, however many bytes pass through, the capacity
   stays within twice the most that was ever live at once.
   */
  lemma MemoryIsBoundedByPeak(ops: seq<Operation>)
    ensures ShapeAfter(NewShape(), ops).capacity <= Max(SMALL_CAPACITY, 2 * PeakLive([], ops))
  {
    hide ShapeAfter, PeakLive, QueueAfter;
    CapacityOverRun(NewShape(), [], ops, PeakLive([], ops));
  }

  // ---------------------------------------------------------------- the class

  class MutableSizeTcpBuffer {
    var storage: array<Byte>                // the string's memory, as long as its capacity
    var size: nat                           // the string's size
    var readOffset: nat
    var writeOffset: nat

    ghost predicate Valid()
      reads this
    {
      && readOffset <= writeOffset == size <= storage.Length
      && SMALL_CAPACITY <= storage.Length
    }

    /** The readable bytes, oldest first. */
    ghost function Contents(): seq<Byte>
      requires Valid()
      reads this, storage
    {
      storage[readOffset..writeOffset]
    }

    ghost function GetShape(): (shape: Shape)
      requires Valid()
      reads this
      ensures IsShape(shape)
    {
      Shape(storage.Length, readOffset, writeOffset)
    }

    constructor ()
      ensures Valid() && fresh(storage)
      ensures Contents() == [] && GetShape() == NewShape()
    {
      storage := new Byte[SMALL_CAPACITY];
      size, readOffset, writeOffset := 0, 0, 0;
    }

    method GetReadableSize() returns (n: nat)
      requires Valid()
      ensures n == |Contents()|
    {
      n := writeOffset - readOffset;
    }

    method ForwardReadPosition(n: nat)
      requires Valid()
      modifies this`readOffset
      ensures Valid()
      ensures Contents() == QueueStep(old(Contents()), Forward(n)) == old(Contents()[Min(n, |Contents()|)..])
      ensures GetShape() == Forwarded(old(GetShape()), n)
    {
      readOffset := Min(readOffset + n, writeOffset);
    }

    /** The position in the storage of the first newline among the readable bytes. */
    method GetNextNewlinePosition() returns (r: Option<nat>)
      requires Valid()
      ensures r.None? <==> FindNewline(Contents()).None?
      ensures r.Some? ==> readOffset <= r.value && FindNewline(Contents()) == Some(r.value - readOffset)
    {
      if readOffset >= writeOffset { return None; }
      ghost var bytes := Contents();
      for i := readOffset to writeOffset
        invariant FindNewline(bytes) == FindNewline(bytes, i - readOffset)
      {
        assert storage[i] == bytes[i - readOffset];
        if storage[i] == '\n' { return Some(i); }
      }
      return None;
    }

    /** The position in the storage of the first CRLF among the readable bytes. */
    method GetNextCrlfPosition() returns (r: Option<nat>)
      requires Valid()
      ensures r.None? <==> FindCrlf(Contents()).None?
      ensures r.Some? ==> readOffset <= r.value && FindCrlf(Contents()) == Some(r.value - readOffset)
    {
      if readOffset >= writeOffset { return None; }
      ghost var bytes := Contents();
      for i := readOffset to writeOffset - 1
        invariant FindCrlf(bytes) == FindCrlf(bytes, i - readOffset)
      {
        assert storage[i] == bytes[i - readOffset] && storage[i + 1] == bytes[i + 1 - readOffset];
        if storage[i] == '\r' && storage[i + 1] == '\n' { return Some(i); }
      }
      return None;
    }

    /** `std::string::resize`: new characters are NUL; a larger capacity at least doubles. */
    method Resize(newSize: nat)
      requires size <= storage.Length && writeOffset <= storage.Length
      modifies this`storage, this`size, storage
      ensures size == newSize <= storage.Length
      ensures newSize <= old(storage.Length) ==> storage == old(storage)
      ensures newSize > old(storage.Length) ==>
        fresh(storage) && storage.Length == Max(newSize, 2 * old(storage.Length))
      ensures storage[..Min(newSize, old(size))] == old(storage[..Min(newSize, size)])
    {
      var oldSize := size;
      if newSize > storage.Length {
        var larger := new Byte[Max(newSize, 2 * storage.Length)](_ => '\0');
        forall k | 0 <= k < oldSize { larger[k] := storage[k]; }
        storage := larger;
      } else {
        forall k | oldSize <= k < newSize { storage[k] := '\0'; }
      }
      size := newSize;
    }

    /** Moves the readable bytes to the front; the two ranges may overlap. */
    method Compact()
      requires Valid()
      modifies this`readOffset, this`writeOffset, storage
      ensures readOffset == 0 && writeOffset == old(writeOffset - readOffset) <= size
      ensures storage[..writeOffset] == old(Contents())
    {
      ghost var before := Contents();
      var read, live := readOffset, writeOffset - readOffset;
      forall k | 0 <= k < live { storage[k] := storage[read + k]; }
      readOffset, writeOffset := 0, live;
      assert storage[..live] == before;
    }

    /** Makes `n` bytes of space behind the readable bytes and tells where it starts. */
    method MakeSpace(n: nat) returns (start: nat)
      requires Valid()
      modifies this, storage
      ensures Valid() && (storage == old(storage) || fresh(storage))
      ensures GetShape() == Extended(old(GetShape()), n)
      ensures n != 0 ==> start == writeOffset - n
      ensures readOffset <= writeOffset - n && storage[readOffset..writeOffset - n] == old(Contents())
    {
      if n == 0 { return 0; }
      var extendable := storage.Length - writeOffset;
      if n <= extendable {
        // fits behind what is there
      } else if n <= extendable + readOffset {
        Compact();
      } else {
        // `Resize` reallocates, and compaction waits till the next time
      }
      ghost var bytes := storage[..writeOffset];
      assert storage[readOffset..writeOffset] == bytes[readOffset..];
      Resize(writeOffset + n);
      assert storage[..writeOffset] == bytes;
      assert storage[readOffset..writeOffset] == bytes[readOffset..];
      start := writeOffset;
      writeOffset := writeOffset + n;
    }

    method Append(data: seq<Byte>)
      requires Valid()
      modifies this, storage
      ensures Valid() && (storage == old(storage) || fresh(storage))
      ensures Contents() == QueueStep(old(Contents()), Operation.Append(data)) == old(Contents()) + data
      ensures GetShape() == Extended(old(GetShape()), |data|)
    {
      hide Extended;
      var start := MakeSpace(|data|);
      CopyIn(start, data);
    }

    /** `memcpy` of `data` to the last bytes of the buffer. */
    method CopyIn(start: nat, data: seq<Byte>)
      requires Valid() && readOffset <= writeOffset - |data|
      requires data != [] ==> start == writeOffset - |data|
      modifies storage
      ensures Contents() == old(storage[readOffset..writeOffset - |data|]) + data
    {
      forall k | 0 <= k < |data| { storage[start + k] := data[k]; }
      assert Contents()[..writeOffset - |data| - readOffset] == old(storage[readOffset..writeOffset - |data|]);
      assert Contents()[writeOffset - |data| - readOffset..] == data;
    }
  }
}
