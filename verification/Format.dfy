/**
 Number formatting (`util::Format`): the reversed-digit loops, what their
 output denotes, and how long it can get.
 */
module Format {

  type Byte = char

  // ------------------------------------------------------------------ numerals

  /** The digit character of a value below sixteen. */
  function DigitOf(d: nat): (c: Byte)
    requires d < 16
    ensures IsDigit(16, c) && DigitValue(c) == d
    ensures forall base: nat :: d < base <= 16 ==> IsDigit(base, c)
  {
    if d < 10 then '0' + d as char else 'a' + (d - 10) as char
  }

  function DigitValue(c: Byte): nat {
    if '0' <= c <= '9' then c as nat - '0' as nat
    else if 'a' <= c <= 'f' then c as nat - 'a' as nat + 10
    else 16
  }

  /** The digits are the usual ones, with small letters. */
  lemma DigitsAreTheUsual(d: nat)
    requires d < 16
    ensures DigitOf(d) == "0123456789abcdef"[d] && DigitValue("0123456789abcdef"[d]) == d
  {
  }

  predicate IsDigit(base: nat, c: Byte) {
    DigitValue(c) < base
  }

  predicate AllDigits(base: nat, s: seq<Byte>) {
    forall k :: 0 <= k < |s| ==> IsDigit(base, s[k])
  }

  /** The number a digit string denotes in `base`. */
  function NumberOf(base: nat, s: seq<Byte>): nat {
    if s == [] then 0 else NumberOf(base, s[..|s| - 1]) * base + DigitValue(s[|s| - 1])
  }

  /** The decimal digits of `n`, most significant first. */
  function Digits(n: nat): (s: seq<Byte>)
    ensures |s| > 0 && AllDigits(10, s)
  {
    if n < 10 then [DigitOf(n)] else Digits(n / 10) + [DigitOf(n % 10)]
  }

  /** A digit string without superfluous zeros. */
  predicate IsCanonical(s: seq<Byte>) {
    && |s| > 0 && AllDigits(10, s)
    && (|s| > 1 ==> s[0] != '0')
  }

  lemma {:induction false} DigitsDenoteTheNumber(n: nat)
    ensures NumberOf(10, Digits(n)) == n && IsCanonical(Digits(n))
    ensures n > 0 ==> Digits(n)[0] != '0'
  {
    var s := Digits(n);
    if n < 10 {
      assert s[..0] == [] && NumberOf(10, s[..0]) == 0;
    } else {
      DigitsDenoteTheNumber(n / 10);
      assert s[..|s| - 1] == Digits(n / 10);
    }
  }

  lemma {:induction false} NumberOfIsPositive(s: seq<Byte>)
    requires AllDigits(10, s) && s != [] && s[0] != '0'
    ensures NumberOf(10, s) > 0
  {
    if |s| > 1 { NumberOfIsPositive(s[..|s| - 1]); }
    assert DigitValue(s[0]) > 0;
  }

  lemma NumberOfFront(s: seq<Byte>)
    requires s != []
    ensures NumberOf(10, s) == NumberOf(10, s[..|s| - 1]) * 10 + DigitValue(s[|s| - 1])
  {
  }

  /** Each number has one canonical numeral, and `Digits` is it. */
  lemma {:induction false} CanonicalNumeralIsUnique(s: seq<Byte>)
    requires IsCanonical(s)
    ensures Digits(NumberOf(10, s)) == s
  {
    var last := s[|s| - 1];
    var front := s[..|s| - 1];
    var d := DigitValue(last);
    assert s == front + [last] && DigitOf(d) == last;
    if front == [] {
      assert NumberOf(10, front) == 0;
    } else {
      CanonicalNumeralIsUnique(front);
      NumberOfIsPositive(front);
      hide NumberOf, IsCanonical, AllDigits, IsDigit;
      assert NumberOf(10, s) == NumberOf(10, front) * 10 + d by { NumberOfFront(s); }
      var n := NumberOf(10, s);
      assert n >= 10 && n / 10 == NumberOf(10, front) && n % 10 == d;
    }
  }

  // ---------------------------------------------------------------- their length

  function Power(base: nat, exponent: nat): nat {
    if exponent == 0 then 1 else base * Power(base, exponent - 1)
  }

  /** `_log10_floor`. */
  function Log10Floor(n: nat): nat {
    if n < 10 then 0 else 1 + Log10Floor(n / 10)
  }

  /** The recursion does compute the floor of the decimal logarithm. */
  lemma {:induction false} Log10FloorIsTheFloor(n: nat)
    requires n > 0
    ensures Power(10, Log10Floor(n)) <= n < Power(10, Log10Floor(n) + 1)
  {
    if n >= 10 {
      Log10FloorIsTheFloor(n / 10);
      var k := Log10Floor(n / 10);
      assert Power(10, k + 2) == 10 * Power(10, k + 1) && Power(10, k + 1) == 10 * Power(10, k);
    } else {
      assert Power(10, 1) == 10 * Power(10, 0);
    }
  }

  lemma {:induction false} LengthOfDigits(n: nat, max: nat)
    requires n <= max
    ensures |Digits(n)| == Log10Floor(n) + 1 <= Log10Floor(max) + 1
  {
    if n >= 10 {
      LengthOfDigits(n / 10, max / 10);
    }
  }

  // ------------------------------------------------------------- integer types

  /** An integer type, by its largest value and signedness. */
  datatype IntegerType = IntegerType(max: nat, signed: bool) {
    /** The largest magnitude whose negative the type also holds. */
    function NegatedMax(): int { -(max as int) }

    function Min(): int { if signed then NegatedMax() - 1 else 0 }

    predicate Holds(v: int) { Min() <= v <= max }

    /** `get_max_number_of_decimal_digits_of_integer_type` */
    function MaxChars(): nat { Log10Floor(max) + 1 + 1 }
  }

  /** The eight types that can be written; `long` and `long long` coincide. */
  const INTEGER_TYPES := {
    IntegerType(0x7fff, true), IntegerType(0x7fff_ffff, true), IntegerType(0x7fff_ffff_ffff_ffff, true),
    IntegerType(0xffff, false), IntegerType(0xffff_ffff, false), IntegerType(0xffff_ffff_ffff_ffff, false)
  }

  /** C's remainder, which takes the sign of the dividend. */
  function Remainder(a: int, b: nat): int
    requires b > 0
  {
    if a >= 0 then a % b else -(-a % b)
  }

  /** C's quotient, which truncates toward zero. */
  function Quotient(a: int, b: nat): int
    requires b > 0
  {
    if a >= 0 then a / b else -(-a / b)
  }

  function Decimal(v: int): (s: seq<Byte>)
    ensures |s| > 0
  {
    if v < 0 then "-" + Digits(-v) else Digits(v)
  }

  /** The integer a decimal string denotes. */
  function IntegerOf(s: seq<Byte>): int {
    if s != [] && s[0] == '-' then -(NumberOf(10, s[1..]) as int) else NumberOf(10, s)
  }

  /**
   What the conversion leaves in the buffer.  The smallest value of a signed
   type is its own negative, so its loop ends after one step, on a remainder
   that is not positive.
   */
  function Converted(t: IntegerType, v: int): seq<Byte>
    requires t.Holds(v)
  {
    if v < t.NegatedMax() then ['-', NextDigit(v)] else Decimal(v)
  }

  /** The text is the canonical decimal and reads back, for exactly the values with |v| <= max. */
  lemma ConversionRoundTrip(t: IntegerType, v: int)
    requires t in INTEGER_TYPES && t.Holds(v)
    ensures Converted(t, v) == Decimal(v) <==> t.NegatedMax() <= v
    ensures IntegerOf(Converted(t, v)) == v <==> t.NegatedMax() <= v
    ensures |Converted(t, v)| <= t.MaxChars()
  {
    hide Digits, NumberOf, Log10Floor;
    DigitsDenoteTheNumber(if v < 0 then -v else v);
    if v < t.NegatedMax() {
      SmallestValueIsMangled(t, v);
    } else if v < 0 {
      assert Decimal(v)[1..] == Digits(-v);
      LengthOfDigits(-v, t.max);
    } else {
      var s := Decimal(v);
      assert IsDigit(10, s[0]);
      LengthOfDigits(v, t.max);
    }
  }

  /** The smallest value comes out as a minus sign and one character that is no digit. */
  lemma SmallestValueIsMangled(t: IntegerType, v: int)
    requires t in INTEGER_TYPES && t.Holds(v) && v < t.NegatedMax()
    ensures Converted(t, v) == "-(" && !IsDigit(10, '(')
    ensures Converted(t, v) != Decimal(v) && IntegerOf(Converted(t, v)) != v
  {
  }

  // -------------------------------------------------------------- the conversions

  function Reversed(s: seq<Byte>): seq<Byte> {
    seq(|s|, k requires 0 <= k < |s| => s[|s| - 1 - k])
  }

  /** The buffer with `s` written over it from `start` on. */
  function Overwritten(buffer: seq<Byte>, start: nat, s: seq<Byte>): seq<Byte>
    requires start + |s| <= |buffer|
  {
    buffer[..start] + s + buffer[start + |s|..]
  }

  /** `std::reverse` of the characters from `lo` up to `hi`. */
  method Reverse(a: array<Byte>, lo: nat, hi: nat)
    requires lo <= hi <= a.Length
    modifies a
    ensures a[..] == Overwritten(old(a[..]), lo, Reversed(old(a[lo..hi])))
  {
    var i, j := lo, hi;
    while i < j
      invariant lo <= i <= j + 1 && j <= hi && i - lo == hi - j
      invariant forall k :: 0 <= k < a.Length && (k < lo || hi <= k || i <= k < j) ==> a[k] == old(a[k])
      invariant forall k :: lo <= k < i ==> a[k] == old(a[lo + hi - 1 - k])
      invariant forall k :: j <= k < hi ==> a[k] == old(a[lo + hi - 1 - k])
    {
      j := j - 1;
      a[i], a[j] := a[j], a[i];
      i := i + 1;
    }
    ghost var before, middle := old(a[..]), Reversed(old(a[lo..hi]));
    forall k | 0 <= k < a.Length ensures a[k] == Overwritten(before, lo, middle)[k] {
      if lo <= k < hi { assert a[k] == old(a[lo + hi - 1 - k]) == middle[k - lo]; }
    }
    assert a[..] == Overwritten(before, lo, middle);
  }

  /** `-input_value` in the type's own width: the smallest value is left as it is. */
  function Negated(t: IntegerType, v: int): int {
    if v < t.NegatedMax() then v else -v
  }

  lemma OverwriteNothing(buffer: seq<Byte>, start: nat)
    requires start <= |buffer|
    ensures Overwritten(buffer, start, []) == buffer
  {
  }

  lemma OverwriteNext(buffer: seq<Byte>, start: nat, s: seq<Byte>, c: Byte)
    requires start + |s| < |buffer|
    ensures Overwritten(buffer, start, s)[start + |s| := c] == Overwritten(buffer, start, s + [c])
  {
  }

  /** Reversing the last part of what was written, up to the NUL. */
  lemma OverwriteReversed(buffer: seq<Byte>, start: nat, t: seq<Byte>, s: seq<Byte>)
    requires start + |t| + |s| < |buffer|
    ensures
      var b := Overwritten(buffer, start, t + s + ['\0']);
      var from := start + |t|;
      Overwritten(b, from, Reversed(b[from..from + |s|])) == Overwritten(buffer, start, t + Reversed(s) + ['\0'])
  {
    var b := Overwritten(buffer, start, t + s + ['\0']);
    assert b[start + |t|..start + |t| + |s|] == s;
  }

  /** `*p++ = c`, where the characters written so far are `s`. */
  method Put(buffer: array<Byte>, p: nat, c: Byte, ghost before: seq<Byte>, ghost start: nat, ghost s: seq<Byte>)
    returns (next: nat)
    requires |before| == buffer.Length && p == start + |s| < buffer.Length
    requires buffer[..] == Overwritten(before, start, s)
    modifies buffer
    ensures next == p + 1
    ensures buffer[..] == Overwritten(before, start, s + [c])
  {
    OverwriteNext(before, start, s, c);
    buffer[p] := c;
    next := p + 1;
  }

  /** The digits of a number, with the last one first, of which `s` have been written. */
  predicate IsRest(magnitude: int, value: int, s: seq<Byte>) {
    if magnitude < 0 then value == magnitude && s == []
    else value >= 0 && Digits(magnitude) == Digits(value) + Reversed(s)
  }

  function NextDigit(value: int): Byte {
    ('0' as int + Remainder(value, 10)) as char
  }

  lemma DigitStep(magnitude: int, value: int, s: seq<Byte>)
    requires IsRest(magnitude, value, s) && (s == [] || value > 0)
    ensures
      var c := NextDigit(value);
      if Quotient(value, 10) > 0 then IsRest(magnitude, Quotient(value, 10), s + [c])
      else if magnitude >= 0 then Digits(magnitude) == Reversed(s + [c])
      else s + [c] == [NextDigit(magnitude)]
    ensures value > 0 ==> Quotient(value, 10) < value
    ensures value <= 0 ==> Quotient(value, 10) <= 0
  {
    var c := NextDigit(value);
    assert Reversed(s + [c]) == [c] + Reversed(s);
    if magnitude >= 0 {
      assert c == DigitOf(value % 10);
    } else {
      assert Quotient(value, 10) <= 0;
    }
  }

  /** Writes the decimal digits of `v` and a NUL at `start`. */
  method ConvertIntegerToDecimalString(t: IntegerType, buffer: array<Byte>, start: nat, v: int) returns (length: nat)
    requires t.Holds(v) && start + t.MaxChars() < buffer.Length
    modifies buffer
    ensures length == |Converted(t, v)| <= t.MaxChars()
    ensures buffer[..] == Overwritten(old(buffer[..]), start, Converted(t, v) + ['\0'])
  {
    hide Digits, Log10Floor, Overwritten, Remainder, Quotient, NextDigit;
    ghost var before, s := buffer[..], [];
    var isNegative := v < 0;
    var value := if isNegative then Negated(t, v) else v;
    ghost var magnitude := value;
    if magnitude >= 0 { LengthOfDigits(magnitude, t.max); }
    OverwriteNothing(before, start);
    var p := start;
    while true
      invariant p == start + |s| < start + t.MaxChars() - 1 && (s == [] || value > 0)
      invariant buffer[..] == Overwritten(before, start, s)
      invariant IsRest(magnitude, value, s)
      decreases value
    {
      DigitStep(magnitude, value, s);
      var c := NextDigit(value);
      p := Put(buffer, p, c, before, start, s);
      s := s + [c];
      value := Quotient(value, 10);
      if value <= 0 { break; }
    }
    if isNegative {
      p := Put(buffer, p, '-', before, start, s);
      assert Reversed(s + ['-']) == ['-'] + Reversed(s);
      s := s + ['-'];
    }
    assert Reversed(s) == Converted(t, v);
    OverwriteReversed(before, start, [], s);
    assert [] + s == s && [] + Reversed(s) == Reversed(s);
    var _ := Put(buffer, p, '\0', before, start, s);
    assert buffer[start..p] == buffer[..][start..p];
    Reverse(buffer, start, p);
    length := p - start;
  }

  // ------------------------------------------------------------------ pointers

  /** Letters of a 64-bit pointer in hexadecimal. */
  const HEX_LETTERS: nat := 16

  /** The last `width` hexadecimal digits of `n`. */
  function HexDigits(n: nat, width: nat): (s: seq<Byte>)
    ensures |s| == width && AllDigits(16, s)
  {
    if width == 0 then [] else HexDigits(n / 16, width - 1) + [DigitOf(n % 16)]
  }

  function PointerText(pointer: nat): (s: seq<Byte>)
    ensures |s| == HEX_LETTERS + 2
  {
    "0x" + HexDigits(pointer, HEX_LETTERS)
  }

  lemma {:induction false} HexDigitsDenote(n: nat, width: nat)
    requires n < Power(16, width)
    ensures NumberOf(16, HexDigits(n, width)) == n
  {
    if width > 0 {
      HexDigitsDenote(n / 16, width - 1);
      assert HexDigits(n, width)[..width - 1] == HexDigits(n / 16, width - 1);
    }
  }

  /** A pointer's text tells the pointer. */
  lemma PointerTextIsInvertible(pointer: nat)
    requires pointer < 0x1_0000_0000_0000_0000
    ensures PointerText(pointer)[..2] == "0x" && NumberOf(16, PointerText(pointer)[2..]) == pointer
  {
    assert Power(16, 4) == 0x1_0000 && Power(16, 8) == 0x1_0000_0000;
    assert Power(16, 12) == 0x1_0000_0000_0000 && Power(16, 16) == 0x1_0000_0000_0000_0000;
    HexDigitsDenote(pointer, HEX_LETTERS);
    assert PointerText(pointer)[2..] == HexDigits(pointer, HEX_LETTERS);
  }

  method ConvertPointerToHexString(buffer: array<Byte>, start: nat, pointer: nat)
    requires start + HEX_LETTERS + 2 < buffer.Length
    modifies buffer
    ensures buffer[..] == Overwritten(old(buffer[..]), start, PointerText(pointer) + ['\0'])
  {
    hide Overwritten, HexDigits;
    ghost var before := buffer[..];
    OverwriteNothing(before, start);
    var p := Put(buffer, start, '0', before, start, []);
    assert [] + ['0'] == "0" && "0" + ['x'] == "0x" + [];
    p := Put(buffer, p, 'x', before, start, "0");
    ghost var s: seq<Byte> := [];
    var value := pointer;
    for i := 0 to HEX_LETTERS
      invariant p == start + 2 + |s| && |s| == i
      invariant buffer[..] == Overwritten(before, start, "0x" + s)
      invariant HexDigits(pointer, HEX_LETTERS) == HexDigits(value, HEX_LETTERS - i) + Reversed(s)
    {
      HexStep(value, HEX_LETTERS - i, s);
      p := Put(buffer, p, DigitOf(value % 16), before, start, "0x" + s);
      assert "0x" + s + [DigitOf(value % 16)] == "0x" + (s + [DigitOf(value % 16)]);
      s := s + [DigitOf(value % 16)];
      value := value / 16;
    }
    var _ := Put(buffer, p, '\0', before, start, "0x" + s);
    OverwriteReversed(before, start, "0x", s);
    HexStep(value, 0, s);
    assert HexDigits(pointer, HEX_LETTERS) == Reversed(s);
    assert buffer[start + 2..p] == buffer[..][start + 2..p];
    Reverse(buffer, start + 2, p);
  }

  lemma HexStep(value: nat, width: nat, s: seq<Byte>)
    ensures width == 0 ==> HexDigits(value, width) == []
    ensures width > 0 ==>
      HexDigits(value, width) + Reversed(s) == HexDigits(value / 16, width - 1) + Reversed(s + [DigitOf(value % 16)])
  {
  }
}
