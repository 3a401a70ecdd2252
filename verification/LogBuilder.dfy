/**
 A log entry under construction: the fixed-size buffer (`FixedSizeLogBuffer`)
 and the guarded writes of `LogBuilder` into it.
 */
module LogBuilder {
  import opened Format
  import LogCollector

  const LOG_ENTRY_BUFFER_SIZE: nat := 4000

  /** Something written with `<<`. */
  datatype Item =
    | Text(text: seq<Byte>)
    | Integer(t: IntegerType, value: int)
    | Pointer(address: nat)
    | Boolean(flag: bool)

  predicate IsItem(item: Item) {
    match item
    case Integer(t, value) => t in INTEGER_TYPES && t.Holds(value)
    case Pointer(address) => address < 0x1_0000_0000_0000_0000
    case _ => true
  }

  function TextOf(item: Item): seq<Byte>
    requires IsItem(item)
  {
    match item
    case Text(text) => text
    case Integer(t, value) => Converted(t, value)
    case Pointer(address) => PointerText(address)
    case Boolean(flag) => if flag then "true " else "false"
  }

  /** The spare space without which an item is thrown away. */
  function Room(item: Item): nat
    requires IsItem(item)
  {
    match item
    case Integer(t, _) => t.MaxChars() + 1
    case Pointer(_) => HEX_LETTERS + 2 + 1
    case _ => |TextOf(item)|
  }

  /** The entry in a buffer of `n` bytes, of which the last is kept for a NUL, after a write. */
  function EntryAfter(n: nat, entry: seq<Byte>, item: Item): seq<Byte>
    requires IsItem(item)
  {
    if |entry| + Room(item) < n then entry + TextOf(item) else entry
  }

  predicate AreItems(items: seq<Item>) {
    forall k :: 0 <= k < |items| ==> IsItem(items[k])
  }

  function EntryAfterAll(n: nat, entry: seq<Byte>, items: seq<Item>): seq<Byte>
    requires AreItems(items)
    decreases |items|
  {
    if items == [] then entry else EntryAfterAll(n, EntryAfter(n, entry, items[0]), items[1..])
  }

  /** No item's text is longer than the room asked for it. */
  lemma RoomSuffices(item: Item)
    requires IsItem(item)
    ensures |TextOf(item)| <= Room(item)
    ensures item.Integer? || item.Pointer? ==> |TextOf(item)| + 1 <= Room(item)
  {
    if item.Integer? { ConversionRoundTrip(item.t, item.value); }
  }

  /** The text of an item tells the item, but for the smallest value of a signed type. */
  lemma TextTellsTheItem(item: Item)
    requires IsItem(item)
    ensures
      var text := TextOf(item);
      match item
      case Text(s) => text == s
      case Boolean(flag) => text == if flag then "true " else "false"
      case Pointer(address) => text[..2] == "0x" && |text| == 18 && NumberOf(16, text[2..]) == address
      case Integer(t, value) => IntegerOf(text) == value <==> -(t.max as int) <= value
  {
    match item
    case Integer(t, value) => ConversionRoundTrip(t, value);
    case Pointer(address) => PointerTextIsInvertible(address);
    case _ =>
  }

  /**
   What a write leaves behind an entry: text if it fits in front of the NUL, a number if
   more than floor(log10 max) + 2 characters are spare, a pointer if more than 18 are, and
   otherwise nothing.
   */
  lemma WrittenIfThereIsRoom(n: nat, entry: seq<Byte>, item: Item)
    requires IsItem(item) && |entry| < n
    ensures
      var spare := n - 1 - |entry|;
      var fits := match item
        case Text(s) => |s| <= spare
        case Boolean(_) => 5 <= spare
        case Pointer(_) => 18 < spare
        case Integer(t, _) => Log10Floor(t.max) + 2 < spare;
      EntryAfter(n, entry, item) == if fits then entry + TextOf(item) else entry
  {
    hide Log10Floor, Converted, PointerText;
    assert item.Boolean? ==> |TextOf(item)| == 5;
  }

  function AllTexts(items: seq<Item>): seq<Byte>
    requires AreItems(items)
    decreases |items|
  {
    if items == [] then [] else TextOf(items[0]) + AllTexts(items[1..])
  }

  function TotalRoom(items: seq<Item>): nat
    requires AreItems(items)
    decreases |items|
  {
    if items == [] then 0 else Room(items[0]) + TotalRoom(items[1..])
  }

  /** Any sequence of writes leaves space for the NUL and only ever adds to the entry. */
  lemma {:induction false} EntryStaysInsideTheBuffer(n: nat, entry: seq<Byte>, items: seq<Item>)
    requires AreItems(items) && |entry| < n
    ensures |EntryAfterAll(n, entry, items)| < n
    ensures entry <= EntryAfterAll(n, entry, items)
    decreases |items|
  {
    if items != [] {
      RoomSuffices(items[0]);
      EntryStaysInsideTheBuffer(n, EntryAfter(n, entry, items[0]), items[1..]);
    }
  }

  /** So a finished entry is never longer than the collector expects of one. */
  lemma EntryFitsTheCollector(items: seq<Item>)
    requires AreItems(items)
    ensures |EntryAfterAll(LOG_ENTRY_BUFFER_SIZE, [], items)| <= LogCollector.MAX_ENTRY
  {
    hide EntryAfterAll;
    EntryStaysInsideTheBuffer(LOG_ENTRY_BUFFER_SIZE, [], items);
  }

  /** Nothing is thrown away when the rooms asked for fit together. */
  lemma {:induction false} NothingIsThrownAway(n: nat, entry: seq<Byte>, items: seq<Item>)
    requires AreItems(items) && |entry| + TotalRoom(items) < n
    ensures EntryAfterAll(n, entry, items) == entry + AllTexts(items)
    decreases |items|
  {
    hide TextOf, Room, IsItem;
    if items == [] {
      assert entry + [] == entry;
    } else {
      RoomSuffices(items[0]);
      NothingIsThrownAway(n, entry + TextOf(items[0]), items[1..]);
      assert entry + TextOf(items[0]) + AllTexts(items[1..]) == entry + AllTexts(items);
    }
  }

  // ---------------------------------------------------------------- the classes

  class FixedSizeLogBuffer {
    const buffer: array<Byte>
    var spare: nat                          // where the spare space starts

    ghost predicate Valid()
      reads this
    {
      spare < buffer.Length
    }

    ghost function Contents(): seq<Byte>
      requires Valid()
      reads this, buffer
    {
      buffer[..spare]
    }

    constructor (size: nat)
      requires size > 0
      ensures Valid() && fresh(buffer) && buffer.Length == size && Contents() == []
    {
      buffer := new Byte[size];
      spare := 0;
    }

    function LengthOfSpare(): nat
      requires Valid()
      reads this
    {
      buffer.Length - 1 - spare
    }

    method IncrementLength(delta: nat)
      requires Valid() && delta <= LengthOfSpare()
      modifies this
      ensures Valid() && Contents() == buffer[..old(spare) + delta]
    {
      spare := spare + delta;
    }

    method Append(data: seq<Byte>)
      requires Valid()
      modifies this, buffer
      ensures Valid() && Contents() == EntryAfter(buffer.Length, old(Contents()), Text(data))
    {
      if |data| > LengthOfSpare() { return; }
      forall k | 0 <= k < |data| { buffer[spare + k] := data[k]; }
      spare := spare + |data|;
      assert Contents() == old(Contents()) + data;
    }

    method Reset()
      requires Valid()
      modifies this
      ensures Valid() && Contents() == []
    {
      spare := 0;
    }
  }

  class LogBuilder {
    const entryBuffer: FixedSizeLogBuffer

    constructor (size: nat)
      requires size > 0
      ensures fresh(entryBuffer) && fresh(entryBuffer.buffer)
      ensures entryBuffer.Valid() && entryBuffer.buffer.Length == size && entryBuffer.Contents() == []
    {
      entryBuffer := new FixedSizeLogBuffer(size);
    }

    /** `operator<<` */
    method Write(item: Item)
      requires IsItem(item) && entryBuffer.Valid()
      modifies entryBuffer, entryBuffer.buffer
      ensures entryBuffer.Valid()
      ensures entryBuffer.Contents() == EntryAfter(entryBuffer.buffer.Length, old(entryBuffer.Contents()), item)
    {
      match item
      case Text(text) => entryBuffer.Append(text);
      case Boolean(flag) => entryBuffer.Append(if flag then "true " else "false");
      case Integer(t, value) => WriteInteger(t, value);
      case Pointer(address) => WritePointer(address);
    }

    method WriteInteger(t: IntegerType, value: int)
      requires t in INTEGER_TYPES && t.Holds(value) && entryBuffer.Valid()
      modifies entryBuffer, entryBuffer.buffer
      ensures entryBuffer.Valid()
      ensures entryBuffer.Contents() ==
        EntryAfter(entryBuffer.buffer.Length, old(entryBuffer.Contents()), Integer(t, value))
    {
      hide Converted;
      if entryBuffer.LengthOfSpare() > t.MaxChars() {
        var length := ConvertIntegerToDecimalString(t, entryBuffer.buffer, entryBuffer.spare, value);
        entryBuffer.IncrementLength(length);
      }
    }

    method WritePointer(address: nat)
      requires address < 0x1_0000_0000_0000_0000 && entryBuffer.Valid()
      modifies entryBuffer, entryBuffer.buffer
      ensures entryBuffer.Valid()
      ensures entryBuffer.Contents() ==
        EntryAfter(entryBuffer.buffer.Length, old(entryBuffer.Contents()), Pointer(address))
    {
      hide PointerText;
      if entryBuffer.LengthOfSpare() > HEX_LETTERS + 2 {
        ConvertPointerToHexString(entryBuffer.buffer, entryBuffer.spare, address);
        entryBuffer.IncrementLength(HEX_LETTERS + 2);
      }
    }
  }
}
