/**
 The resumable HTTP request parser (`HttpParser`) over the growing buffer.
 `Step` is one unit of its work on the bytes still unread, `Parsed` all it can
 do with them.
 */
module HttpParser {
  import opened TcpBuffer
  import opened Wrappers
  import opened HttpRequest
  import Format

  datatype State = ExpectRequestLine | ExpectHeaders | ExpectBody | Success | Fail

  datatype Parser = Parser(state: State, bodyLength: nat, request: Request)

  /** A parser and the bytes it has not read. */
  datatype Progress = Progress(parser: Parser, unread: seq<Byte>)

  const CRLF: seq<Byte> := "\r\n"

  /** A parser for the next message: new, or reset, with the close flag of the one before. */
  function FreshParser(flag: bool): Parser {
    Parser(ExpectRequestLine, 0, Request(UnsupportedMethod, [], UnsupportedVersion, map[], flag, []))
  }

  // -------------------------------------------------------------- content length

  const DECIMAL_DIGITS: set<Byte> := {'0', '1', '2', '3', '4', '5', '6', '7', '8', '9'}

  const LONG_MAX: nat := 0x7fff_ffff_ffff_ffff

  const SIZE_RANGE: nat := 0x1_0000_0000_0000_0000

  /** `strtol` in base ten: `None` when there are no digits, saturated when there are too many. */
  function Strtol(s: seq<Byte>): Option<int> {
    var i := SkipFrom(BLANKS, s, 0);
    var signed := i < |s| && s[i] in {'+', '-'};
    var start := if signed then i + 1 else i;
    var end := SkipFrom(DECIMAL_DIGITS, s, start);
    if start == end then None
    else
      var n := Format.NumberOf(10, s[start..end]);
      if signed && s[i] == '-' then Some(if n > LONG_MAX then -1 - LONG_MAX else -(n as int))
      else Some(Min(n, LONG_MAX))
  }

  /** The length a Content-Length value stands for, cast to `size_t`. */
  function ContentLength(value: seq<Byte>): Option<nat> {
    match Strtol(value)
    case None => None
    case Some(n) => Some(n % SIZE_RANGE)
  }

  lemma DigitsAreDecimal(s: seq<Byte>)
    requires Format.AllDigits(10, s)
    ensures AllIn(DECIMAL_DIGITS, s)
  {
    forall k | 0 <= k < |s| ensures s[k] in DECIMAL_DIGITS { assert Format.IsDigit(10, s[k]); }
  }

  lemma StrtolOfDigits(s: seq<Byte>)
    requires Format.AllDigits(10, s) && s != []
    ensures Strtol(s) == Some(Min(Format.NumberOf(10, s), LONG_MAX))
  {
    hide Format.NumberOf, SkipFrom;
    DigitsAreDecimal(s);
    assert s[0] in DECIMAL_DIGITS;
    SkipFromAt(BLANKS, s, 0, 0);
    SkipFromAt(DECIMAL_DIGITS, s, 0, |s|);
    assert s[0..|s|] == s;
  }

  /** Blanks, a sign or none, all the digits there are, and whatever follows. */
  ghost predicate IsNumeral(s: seq<Byte>, sign: seq<Byte>, digits: seq<Byte>) {
    exists blanks, rest ::
      && s == blanks + sign + digits + rest && AllIn(BLANKS, blanks) && sign in {"", "+", "-"}
      && digits != [] && Format.AllDigits(10, digits) && (rest != [] ==> !Format.IsDigit(10, rest[0]))
  }

  lemma DigitSets()
    ensures forall c :: c in DECIMAL_DIGITS <==> Format.IsDigit(10, c)
    ensures forall c :: Format.IsDigit(10, c) ==> c !in BLANKS && c !in {'+', '-'}
  {
  }

  /** What the numeral stands for, as far as a `long` goes. */
  function Saturated(sign: seq<Byte>, digits: seq<Byte>): int {
    var n: int := Format.NumberOf(10, digits);
    if sign == "-" then Max(-n, -0x8000_0000_0000_0000) else Min(n, 0x7fff_ffff_ffff_ffff)
  }

  lemma NumeralIsRead(s: seq<Byte>, blanks: seq<Byte>, sign: seq<Byte>, digits: seq<Byte>, rest: seq<Byte>)
    requires s == blanks + sign + digits + rest && AllIn(BLANKS, blanks) && sign in {"", "+", "-"}
    requires digits != [] && Format.AllDigits(10, digits) && (rest != [] ==> !Format.IsDigit(10, rest[0]))
    ensures Strtol(s) == Some(Saturated(sign, digits))
  {
    hide Format.NumberOf, Format.IsDigit, SkipFrom;
    DigitSets();
    var i := |blanks|;
    var start := i + |sign|;
    var end := start + |digits|;
    assert s[start] == digits[0] && (sign != [] ==> s[i] == sign[0]);
    SkipFromAt(BLANKS, s, 0, i);
    forall k | start <= k < end ensures s[k] in DECIMAL_DIGITS { assert s[k] == digits[k - start]; }
    assert end < |s| ==> s[end] == rest[0];
    SkipFromAt(DECIMAL_DIGITS, s, start, end);
    assert s[start..end] == digits;
  }

  lemma NumeralMeans(s: seq<Byte>, sign: seq<Byte>, digits: seq<Byte>)
    requires IsNumeral(s, sign, digits)
    ensures Strtol(s) == Some(Saturated(sign, digits))
  {
    hide Strtol, Saturated, Format.IsDigit;
    var blanks, rest :|
      && s == blanks + sign + digits + rest && AllIn(BLANKS, blanks) && sign in {"", "+", "-"}
      && digits != [] && Format.AllDigits(10, digits) && (rest != [] ==> !Format.IsDigit(10, rest[0]));
    NumeralIsRead(s, blanks, sign, digits, rest);
  }

  /** What `strtol` makes of a text: a number exactly when there is a numeral, and then that one's, saturated. */
  lemma StrtolGrammar(s: seq<Byte>)
    ensures Strtol(s).None? <==> forall sign, digits :: !IsNumeral(s, sign, digits)
    ensures forall sign, digits :: IsNumeral(s, sign, digits) ==> Strtol(s) == Some(Saturated(sign, digits))
  {
    hide Strtol, Saturated, IsNumeral;
    forall sign, digits | IsNumeral(s, sign, digits) ensures Strtol(s) == Some(Saturated(sign, digits)) {
      NumeralMeans(s, sign, digits);
    }
    if Strtol(s).Some? { ReadIsNumeral(s); }
  }

  lemma ReadIsNumeral(s: seq<Byte>)
    requires Strtol(s).Some?
    ensures exists sign, digits :: IsNumeral(s, sign, digits)
  {
    hide Format.NumberOf, Format.IsDigit, IsNumeral;
    DigitSets();
    var i := SkipFrom(BLANKS, s, 0);
    var start := if i < |s| && s[i] in {'+', '-'} then i + 1 else i;
    var end := SkipFrom(DECIMAL_DIGITS, s, start);
    var sign := if start == i then "" else if s[i] == '+' then "+" else "-";
    hide Strtol, SkipFrom;
    forall k | 0 <= k < end - start ensures s[start..end][k] in DECIMAL_DIGITS {
      assert s[start + k] in DECIMAL_DIGITS;
    }
    PartsAreNumeral(s, i, sign, start, end);
  }

  lemma PartsAreNumeral(s: seq<Byte>, i: nat, sign: seq<Byte>, start: nat, end: nat)
    requires i <= start < end <= |s| && AllIn(BLANKS, s[..i]) && s[i..start] == sign && sign in {"", "+", "-"}
    requires Format.AllDigits(10, s[start..end]) && (end < |s| ==> !Format.IsDigit(10, s[end]))
    ensures IsNumeral(s, sign, s[start..end])
  {
    hide Format.IsDigit;
    var blanks, digits, rest := s[..i], s[start..end], s[end..];
    assert blanks + sign == s[..start];
    assert blanks + sign + digits == s[..end];
    assert s == blanks + sign + digits + rest;
    assert rest != [] ==> rest[0] == s[end];
  }

  /** A Content-Length: no numeral is refused, and a negative number stands for one less than 2^64 by as much. */
  lemma ContentLengthGrammar(s: seq<Byte>)
    ensures ContentLength(s).None? <==> forall sign, digits :: !IsNumeral(s, sign, digits)
    ensures forall sign, digits :: IsNumeral(s, sign, digits) ==>
      var n: int := Format.NumberOf(10, digits);
      ContentLength(s) == Some(
        if sign == "-" && n > 0 then 0x1_0000_0000_0000_0000 - Min(n, 0x8000_0000_0000_0000)
        else Min(n, 0x7fff_ffff_ffff_ffff))
  {
    hide Strtol, IsNumeral;
    StrtolGrammar(s);
  }

  /** The decimal of a length is read back as that length. */
  lemma LengthIsReadBack(n: nat)
    requires n <= LONG_MAX
    ensures ContentLength(Format.Decimal(n)) == Some(n)
  {
    hide Format.NumberOf, Format.Digits, Strtol;
    Format.DigitsDenoteTheNumber(n);
    StrtolOfDigits(Format.Digits(n));
  }

  // ------------------------------------------------------------------- the parser

  /** The parser behind the empty line that ends the headers. */
  function HeadersEnded(p: Parser): Parser {
    var headers := p.request.headers;
    var r := p.request.(needClose := "Connection" in headers && headers["Connection"] == "close");
    if r.methodType == POST && "Content-Length" in headers then
      match ContentLength(headers["Content-Length"])
      case None => Parser(Fail, 0, r)
      case Some(n) => Parser(if n == 0 then Success else ExpectBody, n, r)
    else Parser(Success, p.bodyLength, r)
  }

  /** The next unit of work, or `None` when it takes more bytes or the parser has finished. */
  function Step(now: Progress): (next: Option<Progress>)
    ensures next.Some? ==> Measure(next.value) < Measure(now)
  {
    var Progress(p, unread) := now;
    match p.state
    case ExpectRequestLine =>
      (match FindCrlf(unread)
       case None => None
       case Some(i) =>
         var outcome := ParsedRequestLine(p.request, unread[..i]);
         if outcome.ok then Some(Progress(p.(state := ExpectHeaders, request := outcome.request), unread[i + 2..]))
         else Some(Progress(p.(state := Fail, request := outcome.request), unread)))
    case ExpectHeaders =>
      (match FindCrlf(unread)
       case None => None
       case Some(i) =>
         if i == 0 then Some(Progress(HeadersEnded(p), unread[2..]))
         else
           var outcome := ParsedHeaderLine(p.request, unread[..i]);
           if outcome.ok then Some(Progress(p.(request := outcome.request), unread[i + 2..]))
           else Some(Progress(p.(state := Fail, request := outcome.request), unread)))
    case ExpectBody =>
      if |unread| < p.bodyLength then None
      else Some(Progress(p.(state := Success, request := p.request.(body := unread[..p.bodyLength])),
                         unread[p.bodyLength..]))
    case _ => None
  }

  function Measure(now: Progress): nat {
    |now.unread| + if now.parser.state in {Success, Fail} then 0 else 1
  }

  /** Everything the parser can do with the bytes at hand. */
  function Parsed(now: Progress): (end: Progress)
    ensures Step(end) == None
    decreases Measure(now)
  {
    match Step(now)
    case None => now
    case Some(next) => Parsed(next)
  }

  // ----------------------------------------------------------- chunk independence

  function More(now: Progress, bytes: seq<Byte>): Progress {
    now.(unread := now.unread + bytes)
  }

  lemma CrlfStaysFirst(s: seq<Byte>, t: seq<Byte>)
    requires FindCrlf(s).Some?
    ensures FindCrlf(s + t) == FindCrlf(s)
  {
    var i := FindCrlf(s).value;
    forall j | 0 <= j < i ensures !IsCrlf(s + t, j) { assert !IsCrlf(s, j); }
    FindCrlfIsFirst(s + t, i);
  }

  /** What a step does does not depend on the bytes that come later. */
  lemma StepIsStable(now: Progress, bytes: seq<Byte>)
    requires Step(now).Some?
    ensures Step(More(now, bytes)) == Some(More(Step(now).value, bytes))
  {
    hide ParsedRequestLine, ParsedHeaderLine, FindCrlf, HeadersEnded;
    var unread := now.unread;
    if now.parser.state == ExpectBody {
      var n := now.parser.bodyLength;
      assert (unread + bytes)[..n] == unread[..n] && (unread + bytes)[n..] == unread[n..] + bytes;
    } else {
      CrlfStaysFirst(unread, bytes);
      var i := FindCrlf(unread).value;
      assert (unread + bytes)[..i] == unread[..i] && (unread + bytes)[i + 2..] == unread[i + 2..] + bytes;
      assert i == 0 ==> (unread + bytes)[2..] == unread[2..] + bytes;
    }
  }

  /** Parsing early and again later is parsing once. */
  lemma {:induction false} ParsedEarlier(now: Progress, bytes: seq<Byte>)
    ensures Parsed(More(now, bytes)) == Parsed(More(Parsed(now), bytes))
    decreases Measure(now)
  {
    hide Step;
    match Step(now)
    case None =>
    case Some(next) =>
      StepIsStable(now, bytes);
      ParsedEarlier(next, bytes);
  }

  function Concatenated(pieces: seq<seq<Byte>>): seq<Byte> {
    if pieces == [] then [] else pieces[0] + Concatenated(pieces[1..])
  }

  /**
   The pieces are appended one by one, with a call of `parse` after each until it
   has succeeded or failed (from then on `Parsed` changes nothing).
   */
  function Fed(now: Progress, pieces: seq<seq<Byte>>): Progress
    decreases |pieces|
  {
    if pieces == [] then now else Fed(Parsed(More(now, pieces[0])), pieces[1..])
  }

  /**
   However the stream is cut, state, request, body length and unread bytes come
   out as when it arrives at once.  The parser has done what it could before,
   as after any call of `parse`, or is new.
   */
  lemma {:induction false} ChunkIndependence(now: Progress, pieces: seq<seq<Byte>>)
    requires Step(now) == None
    ensures Fed(now, pieces) == Parsed(More(now, Concatenated(pieces)))
    decreases |pieces|
  {
    hide Step;
    if pieces == [] {
      assert More(now, []) == now;
    } else {
      var first := More(now, pieces[0]);
      ChunkIndependence(Parsed(first), pieces[1..]);
      ParsedEarlier(first, Concatenated(pieces[1..]));
      assert now.unread + Concatenated(pieces) == now.unread + pieces[0] + Concatenated(pieces[1..]);
    }
  }

  /** Two ways of cutting one stream cannot be told apart. */
  lemma CutsCannotBeToldApart(pieces: seq<seq<Byte>>, others: seq<seq<Byte>>)
    requires Concatenated(pieces) == Concatenated(others)
    ensures Fed(Progress(FreshParser(false), []), pieces) == Fed(Progress(FreshParser(false), []), others)
  {
    assert FindCrlf([]) == None;
    ChunkIndependence(Progress(FreshParser(false), []), pieces);
    ChunkIndependence(Progress(FreshParser(false), []), others);
  }

  // ------------------------------------------------------- what a message looks like

  function Lines(lines: seq<seq<Byte>>): seq<Byte>
    decreases |lines|
  {
    if lines == [] then [] else lines[0] + CRLF + Lines(lines[1..])
  }

  predicate AreHeaderLines(lines: seq<seq<Byte>>) {
    forall k :: 0 <= k < |lines| ==> lines[k] != [] && FindCrlf(lines[k]).None? && FieldOf(lines[k]).Some?
  }

  /** The request with the fields of the lines entered in order. */
  function WithFields(r: Request, lines: seq<seq<Byte>>): Request
    decreases |lines|
  {
    if lines == [] then r else WithFields(ParsedHeaderLine(r, lines[0]).request, lines[1..])
  }

  /** A line ends at the first CRLF. */
  lemma LineIsFound(line: seq<Byte>, rest: seq<Byte>)
    requires FindCrlf(line).None?
    ensures FindCrlf(line + CRLF + rest) == Some(|line|)
  {
    var s := line + CRLF + rest;
    forall j | 0 <= j < |line| ensures !IsCrlf(s, j) { assert !IsCrlf(line, j); }
    FindCrlfIsFirst(s, |line|);
  }

  lemma HeaderLineIsRead(p: Parser, line: seq<Byte>, later: seq<Byte>)
    requires p.state == ExpectHeaders && line != [] && FindCrlf(line).None? && FieldOf(line).Some?
    ensures Parsed(Progress(p, line + CRLF + later)) ==
      Parsed(Progress(p.(request := ParsedHeaderLine(p.request, line).request), later))
  {
    hide ParsedHeaderLine, FindCrlf, HeadersEnded, FieldOf, Parsed;
    var input := line + CRLF + later;
    LineIsFound(line, later);
    assert input[..|line|] == line && input[|line| + 2..] == later;
    FieldMeansOk(p.request, line);
    StepLeadsOn(Progress(p, input));
  }

  lemma {:induction false} HeaderLinesAreRead(p: Parser, lines: seq<seq<Byte>>, tail: seq<Byte>)
    requires p.state == ExpectHeaders && AreHeaderLines(lines)
    ensures Parsed(Progress(p, Lines(lines) + tail)) ==
      Parsed(Progress(p.(request := WithFields(p.request, lines)), tail))
    decreases |lines|
  {
    hide ParsedHeaderLine, FindCrlf, FieldOf, Parsed;
    if lines == [] {
      assert [] + tail == tail;
    } else {
      var line, rest := lines[0], lines[1..];
      HeaderLineIsRead(p, line, Lines(rest) + tail);
      HeaderLinesAreRead(p.(request := ParsedHeaderLine(p.request, line).request), rest, tail);
      assert Lines(lines) + tail == line + CRLF + (Lines(rest) + tail);
    }
  }

  /** The header section is read line by line up to the empty line. */
  lemma HeaderSectionIsRead(p: Parser, lines: seq<seq<Byte>>, rest: seq<Byte>)
    requires p.state == ExpectHeaders && AreHeaderLines(lines)
    ensures Parsed(Progress(p, Lines(lines) + CRLF + rest)) ==
      Parsed(Progress(HeadersEnded(p.(request := WithFields(p.request, lines))), rest))
  {
    hide ParsedHeaderLine, FindCrlf, HeadersEnded, WithFields, Lines;
    HeaderLinesAreRead(p, lines, CRLF + rest);
    assert Lines(lines) + (CRLF + rest) == Lines(lines) + CRLF + rest;
    LineIsFound([], rest);
    assert [] + CRLF + rest == CRLF + rest && (CRLF + rest)[2..] == rest;
    StepLeadsOn(Progress(p.(request := WithFields(p.request, lines)), CRLF + rest));
  }

  lemma FieldMeansOk(r: Request, line: seq<Byte>)
    ensures ParsedHeaderLine(r, line).ok <==> FieldOf(line).Some?
  {
  }

  /** The bytes hold everything that is announced for the part behind the headers. */
  predicate HasBody(p: Parser, rest: seq<Byte>) {
    p.state == Success || (p.state == ExpectBody && p.bodyLength <= |rest|)
  }

  ghost predicate HasHeaders(p: Parser, input: seq<Byte>) {
    exists lines, rest ::
      && AreHeaderLines(lines) && input == Lines(lines) + CRLF + rest
      && HasBody(HeadersEnded(p.(request := WithFields(p.request, lines))), rest)
  }

  lemma HeadersAreRead(p: Parser, input: seq<Byte>)
    requires p.state == ExpectHeaders && HasHeaders(p, input)
    ensures Parsed(Progress(p, input)).parser.state == Success
  {
    hide AreHeaderLines, HeadersEnded, WithFields;
    var lines, rest :|
      && AreHeaderLines(lines) && input == Lines(lines) + CRLF + rest
      && HasBody(HeadersEnded(p.(request := WithFields(p.request, lines))), rest);
    HeaderSectionIsRead(p, lines, rest);
  }

  predicate Succeeds(now: Progress) {
    Parsed(now).parser.state == Success
  }

  lemma SplitAtCrlf(s: seq<Byte>)
    requires FindCrlf(s).Some?
    ensures
      var i := FindCrlf(s).value;
      i + 2 <= |s| && s == s[..i] + CRLF + s[i + 2..] && FindCrlf(s[..i]) == None
  {
    hide FindCrlf;
    var i := FindCrlf(s).value;
    assert IsCrlf(s, i);
    assert s[i..i + 2] == CRLF;
    assert s == s[..i] + s[i..i + 2] + s[i + 2..];
    PrefixHasNoCrlf(s, i);
  }

  lemma PrefixHasNoCrlf(s: seq<Byte>, i: nat)
    requires i <= |s| && forall j :: 0 <= j < i ==> !IsCrlf(s, j)
    ensures FindCrlf(s[..i]) == None
  {
    hide FindCrlf;
    forall j | 0 <= j < i ensures !IsCrlf(s[..i], j) { assert !IsCrlf(s, j); }
  }

  lemma HeaderStepSucceeds(p: Parser, input: seq<Byte>)
    requires p.state == ExpectHeaders && Succeeds(Progress(p, input))
    ensures FindCrlf(input).Some?
    ensures
      var i := FindCrlf(input).value;
      if i == 0 then HasBody(HeadersEnded(p), input[2..])
      else
        && FieldOf(input[..i]).Some?
        && Succeeds(Progress(p.(request := ParsedHeaderLine(p.request, input[..i]).request), input[i + 2..]))
  {
    hide FindCrlf, FieldOf, ContentLength, Parsed;
    StepLeadsOn(Progress(p, input));
    var next := Step(Progress(p, input)).value;
    if next.parser.state == Fail { FailStays(next); }
    if FindCrlf(input).value == 0 { EndOfHeadersSucceeds(HeadersEnded(p), input[2..]); }
  }

  lemma EndOfHeadersSucceeds(p: Parser, rest: seq<Byte>)
    requires p.state in {Success, ExpectBody, Fail} && Succeeds(Progress(p, rest))
    ensures HasBody(p, rest)
  {
  }

  lemma OneMoreLine(p: Parser, line: seq<Byte>, later: seq<Byte>)
    requires line != [] && FindCrlf(line).None? && FieldOf(line).Some?
    requires HasHeaders(p.(request := ParsedHeaderLine(p.request, line).request), later)
    ensures HasHeaders(p, line + CRLF + later)
  {
    hide FindCrlf, FieldOf, HasBody, HeadersEnded, ParsedHeaderLine;
    var q := p.(request := ParsedHeaderLine(p.request, line).request);
    var lines, rest :|
      && AreHeaderLines(lines) && later == Lines(lines) + CRLF + rest
      && HasBody(HeadersEnded(q.(request := WithFields(q.request, lines))), rest);
    var all := [line] + lines;
    assert all[1..] == lines;
    assert line + CRLF + later == Lines(all) + CRLF + rest;
    assert p.(request := WithFields(p.request, all)) == q.(request := WithFields(q.request, lines));
  }

  lemma {:induction false} ReadHeadersAreThere(p: Parser, input: seq<Byte>)
    requires p.state == ExpectHeaders && Succeeds(Progress(p, input))
    ensures HasHeaders(p, input)
    decreases |input|
  {
    hide FindCrlf, FieldOf, HasBody, HeadersEnded, ParsedHeaderLine, Succeeds, HasHeaders;
    HeaderStepSucceeds(p, input);
    SplitAtCrlf(input);
    var i := FindCrlf(input).value;
    if i == 0 {
      NoLines(p, input[2..]);
      assert input == CRLF + input[2..];
    } else {
      ReadHeadersAreThere(p.(request := ParsedHeaderLine(p.request, input[..i]).request), input[i + 2..]);
      OneMoreLine(p, input[..i], input[i + 2..]);
    }
  }

  lemma NoLines(p: Parser, rest: seq<Byte>)
    requires HasBody(HeadersEnded(p), rest)
    ensures HasHeaders(p, CRLF + rest)
  {
    hide HasBody, HeadersEnded;
    assert CRLF + rest == Lines([]) + CRLF + rest;
    assert p.(request := WithFields(p.request, [])) == p;
  }

  ghost predicate IsMessage(p: Parser, input: seq<Byte>) {
    exists line, later ::
      && input == line + CRLF + later && FindCrlf(line).None? && ParsedRequestLine(p.request, line).ok
      && HasHeaders(p.(state := ExpectHeaders, request := ParsedRequestLine(p.request, line).request), later)
  }

  lemma RequestLineStep(p: Parser, input: seq<Byte>)
    requires p.state == ExpectRequestLine
    ensures Succeeds(Progress(p, input)) <==>
      && FindCrlf(input).Some?
      && var outcome := ParsedRequestLine(p.request, input[..FindCrlf(input).value]);
      && outcome.ok
      && Succeeds(Progress(p.(state := ExpectHeaders, request := outcome.request), input[FindCrlf(input).value + 2..]))
  {
    hide FindCrlf, ParsedRequestLine, Parsed;
    StepLeadsOn(Progress(p, input));
    var outcome := ParsedRequestLine(p.request, if FindCrlf(input).Some? then input[..FindCrlf(input).value] else []);
    FailStays(Progress(p.(state := Fail, request := outcome.request), input));
  }

  lemma StepLeadsOn(now: Progress)
    ensures Parsed(now) == if Step(now).Some? then Parsed(Step(now).value) else now
  {
  }

  lemma FailStays(now: Progress)
    requires now.parser.state == Fail
    ensures Parsed(now) == now
  {
  }

  /**
   The parser succeeds on exactly the streams that start with a message: a
   request line, header lines, an empty line and as many bytes as announced.
   */
  lemma SuccessNeedsLines(p: Parser, input: seq<Byte>)
    requires p.state == ExpectRequestLine
    ensures Parsed(Progress(p, input)).parser.state == Success <==> IsMessage(p, input)
  {
    hide FindCrlf, HasHeaders, ParsedRequestLine, Parsed;
    RequestLineStep(p, input);
    if Succeeds(Progress(p, input)) {
      SplitAtCrlf(input);
      var i := FindCrlf(input).value;
      ReadHeadersAreThere(p.(state := ExpectHeaders, request := ParsedRequestLine(p.request, input[..i]).request),
                          input[i + 2..]);
    }
    if IsMessage(p, input) {
      var line, later :|
        && input == line + CRLF + later && FindCrlf(line).None? && ParsedRequestLine(p.request, line).ok
        && HasHeaders(p.(state := ExpectHeaders, request := ParsedRequestLine(p.request, line).request), later);
      LineIsFound(line, later);
      assert input[..|line|] == line && input[|line| + 2..] == later;
      HeadersAreRead(p.(state := ExpectHeaders, request := ParsedRequestLine(p.request, line).request), later);
    }
  }

  // ------------------------------------------------------------ what is read of it

  /** A message as it is sent, in its parts: `fields` are what the header lines say. */
  datatype Message = Message(
    line: seq<Byte>, verb: seq<Byte>, path: seq<Byte>, version: seq<Byte>,
    lines: seq<seq<Byte>>, fields: seq<Field>)

  ghost predicate IsHead(m: Message) {
    && FindCrlf(m.line).None? && IsSplitLine(m.line, m.verb, m.path, m.version)
    && m.verb in {"GET", "POST"} && m.version in {"HTTP/1.0", "HTTP/1.1"}
    && |m.lines| == |m.fields|
    && forall k :: 0 <= k < |m.lines| ==> FindCrlf(m.lines[k]).None? && IsHeaderLine(m.lines[k], m.fields[k])
  }

  /** The field is there, and is the last one with its key. */
  ghost predicate IsLastField(fields: seq<Field>, key: seq<Byte>, value: seq<Byte>) {
    exists k :: 0 <= k < |fields| && IsLastAt(fields, k, key, value)
  }

  predicate IsLastAt(fields: seq<Field>, k: nat, key: seq<Byte>, value: seq<Byte>)
    requires k < |fields|
  {
    fields[k] == Field(key, value) && forall j :: k < j < |fields| ==> fields[j].key != key
  }

  predicate IsHeader(headers: map<seq<Byte>, seq<Byte>>, key: seq<Byte>, value: seq<Byte>) {
    key in headers && headers[key] == value
  }

  lemma {:induction false} FieldsAreHeaders(
      r: Request, lines: seq<seq<Byte>>, fields: seq<Field>, key: seq<Byte>, value: seq<Byte>)
    requires |lines| == |fields| && forall k :: 0 <= k < |lines| ==> FieldOf(lines[k]) == Some(fields[k])
    ensures WithFields(r, lines) == r.(headers := WithFields(r, lines).headers)
    ensures IsHeader(WithFields(r, lines).headers, key, value) <==>
      || IsLastField(fields, key, value)
      || (IsHeader(r.headers, key, value) && forall k :: 0 <= k < |fields| ==> fields[k].key != key)
    decreases |lines|
  {
    hide FieldOf;
    if lines != [] {
      var first, later := fields[0], fields[1..];
      FieldsAreHeaders(ParsedHeaderLine(r, lines[0]).request, lines[1..], later, key, value);
      forall k | 0 <= k < |later| ensures later[k] == fields[k + 1] {}
      if IsLastField(later, key, value) {
        var k :| 0 <= k < |later| && IsLastAt(later, k, key, value);
        forall j | k + 1 < j < |fields| ensures fields[j].key != key { assert later[j - 1].key != key; }
        assert IsLastAt(fields, k + 1, key, value);
      }
      if first == Field(key, value) && forall k :: 0 <= k < |later| ==> later[k].key != key {
        assert IsLastAt(fields, 0, key, value);
      }
      if IsLastField(fields, key, value) {
        var k :| 0 <= k < |fields| && IsLastAt(fields, k, key, value);
        if k > 0 { assert IsLastAt(later, k - 1, key, value); }
      }
    }
  }

  /** The parser behind the header lines of a message, and what it then holds. */
  lemma HeadIsRead(m: Message, flag: bool, tail: seq<Byte>) returns (p: Parser)
    requires IsHead(m)
    ensures p.state == ExpectHeaders && p.bodyLength == 0
    ensures Parsed(Progress(FreshParser(flag), m.line + CRLF + (Lines(m.lines) + tail))) == Parsed(Progress(p, tail))
    ensures p.request == Request(if m.verb == "GET" then GET else POST, m.path,
                                 if m.version == "HTTP/1.0" then Http10 else Http11, p.request.headers, flag, [])
    ensures forall key, value :: IsHeader(p.request.headers, key, value) <==> IsLastField(m.fields, key, value)
  {
    hide FindCrlf, IsSplitLine, ParsedRequestLine, Parsed, IsHeaderLine, FieldOf, Lines, WithFields;
    hide IsHeader, IsLastField;
    var start := FreshParser(flag);
    var later := Lines(m.lines) + tail;
    var input := m.line + CRLF + later;
    LineIsFound(m.line, later);
    assert input[..|m.line|] == m.line && input[|m.line| + 2..] == later;
    RequestLineGrammar(start.request, m.line, m.path);
    StepLeadsOn(Progress(start, input));
    var outcome := ParsedRequestLine(start.request, m.line);
    forall k | 0 <= k < |m.lines| ensures m.lines[k] != [] && FieldOf(m.lines[k]) == Some(m.fields[k]) {
      HeaderLineGrammar(m.lines[k], m.fields[k]);
      FieldNeedsText(m.lines[k]);
    }
    HeaderLinesAreRead(start.(state := ExpectHeaders, request := outcome.request), m.lines, tail);
    forall key, value
      ensures IsHeader(WithFields(outcome.request, m.lines).headers, key, value) <==> IsLastField(m.fields, key, value)
    {
      FieldsAreHeaders(outcome.request, m.lines, m.fields, key, value);
      NoHeaders(key, value);
    }
    p := start.(state := ExpectHeaders, request := WithFields(outcome.request, m.lines));
    FieldsAreHeaders(outcome.request, m.lines, m.fields, [], []);
  }

  lemma FieldNeedsText(line: seq<Byte>)
    requires FieldOf(line).Some?
    ensures line != []
  {
  }

  lemma NoHeaders(key: seq<Byte>, value: seq<Byte>)
    ensures !IsHeader(map[], key, value)
  {
  }

  /** What the parser leaves of the request behind the empty line, with `rest` there to be read as its body. */
  ghost predicate IsReadAs(m: Message, rest: seq<Byte>, end: Progress) {
    var r := end.parser.request;
    && r.methodType == (if m.verb == "GET" then GET else POST) && r.path == m.path
    && r.versionType == (if m.version == "HTTP/1.0" then Http10 else Http11)
    && (forall key, value :: IsHeader(r.headers, key, value) <==> IsLastField(m.fields, key, value))
    && (r.needClose <==> IsLastField(m.fields, "Connection", "close"))
    && (end.parser.state == Success ==> rest == r.body + end.unread)
    && (end.parser.state != Success ==> r.body == [] && end.unread == rest)
  }

  /**
   What becomes of a complete message head and what follows it.  Only a POST with
   a Content-Length has a body: that many bytes once they are there, none being
   taken before; if that value has no digits the parser fails.
   */
  lemma MessageIsRead(m: Message, flag: bool, rest: seq<Byte>)
    requires IsHead(m)
    ensures
      var end := Parsed(Progress(FreshParser(flag), m.line + CRLF + (Lines(m.lines) + (CRLF + rest))));
      && IsReadAs(m, rest, end)
      && (m.verb == "GET" || (forall value :: !IsLastField(m.fields, "Content-Length", value)) ==>
            end.parser.state == Success && end.parser.request.body == [] && end.parser.bodyLength == 0)
      && (forall value :: m.verb == "POST" && IsLastField(m.fields, "Content-Length", value) ==>
            match ContentLength(value)
            case None => end.parser.state == Fail && end.parser.bodyLength == 0
            case Some(n) =>
              && end.parser.bodyLength == n
              && if n <= |rest| then end.parser.state == Success && |end.parser.request.body| == n
                 else end.parser.state == ExpectBody)
  {
    var p := HeadIsRead(m, flag, CRLF + rest);
    hide FindCrlf, IsHead, Lines, ContentLength;
    LineIsFound([], rest);
    assert [] + CRLF + rest == CRLF + rest && (CRLF + rest)[2..] == rest;
    StepLeadsOn(Progress(p, CRLF + rest));
    EndOfHead(m, p, rest);
  }

  lemma EndOfHead(m: Message, p: Parser, rest: seq<Byte>)
    requires p.state == ExpectHeaders && p.bodyLength == 0
    requires p.request == Request(if m.verb == "GET" then GET else POST, m.path,
                                  if m.version == "HTTP/1.0" then Http10 else Http11, p.request.headers,
                                  p.request.needClose, [])
    requires forall key, value :: IsHeader(p.request.headers, key, value) <==> IsLastField(m.fields, key, value)
    requires m.verb in {"GET", "POST"}
    ensures
      var end := Parsed(Progress(HeadersEnded(p), rest));
      && IsReadAs(m, rest, end)
      && (m.verb == "GET" || (forall value :: !IsLastField(m.fields, "Content-Length", value)) ==>
            end.parser.state == Success && end.parser.request.body == [] && end.parser.bodyLength == 0)
      && (forall value :: m.verb == "POST" && IsLastField(m.fields, "Content-Length", value) ==>
            match ContentLength(value)
            case None => end.parser.state == Fail && end.parser.bodyLength == 0
            case Some(n) =>
              && end.parser.bodyLength == n
              && if n <= |rest| then end.parser.state == Success && |end.parser.request.body| == n
                 else end.parser.state == ExpectBody)
  {
    hide FindCrlf, ContentLength, IsLastField;
    var q := HeadersEnded(p);
    StepLeadsOn(Progress(q, rest));
    assert forall value :: IsHeader(p.request.headers, "Content-Length", value) <==>
      IsLastField(m.fields, "Content-Length", value);
    assert IsHeader(p.request.headers, "Connection", "close") <==> IsLastField(m.fields, "Connection", "close");
    if "Content-Length" in p.request.headers {
      assert IsHeader(p.request.headers, "Content-Length", p.request.headers["Content-Length"]);
    }
    if q.state == ExpectBody && q.bodyLength <= |rest| {
      assert rest == rest[..q.bodyLength] + rest[q.bodyLength..];
      StepLeadsOn(Step(Progress(q, rest)).value);
    }
  }

  /** The stream is this head and, after the empty line, `rest`. */
  ghost predicate StartsWith(input: seq<Byte>, m: Message, rest: seq<Byte>) {
    IsHead(m) && input == m.line + CRLF + (Lines(m.lines) + (CRLF + rest))
  }

  /** The body announced, if any, is there. */
  ghost predicate HasArrived(m: Message, rest: seq<Byte>) {
    m.verb == "POST" ==>
      forall value :: IsLastField(m.fields, "Content-Length", value) ==>
        ContentLength(value).Some? && ContentLength(value).value <= |rest|
  }

  lemma ReadHeadIsThere(p: Parser, line: seq<Byte>, lines: seq<seq<Byte>>) returns (m: Message)
    requires FindCrlf(line).None? && ParsedRequestLine(p.request, line).ok && AreHeaderLines(lines)
    ensures IsHead(m) && m.line == line && m.lines == lines
  {
    hide ParsedRequestLine, IsSplitLine, FieldOf, IsHeaderLine, FindCrlf;
    RequestLineGrammar(p.request, line, []);
    var verb, path, version :|
      verb in {"GET", "POST"} && version in {"HTTP/1.0", "HTTP/1.1"} && IsSplitLine(line, verb, path, version);
    var fields := seq(|lines|, k requires 0 <= k < |lines| => FieldOf(lines[k]).value);
    forall k | 0 <= k < |lines| ensures IsHeaderLine(lines[k], fields[k]) { HeaderLineGrammar(lines[k], fields[k]); }
    m := Message(line, verb, path, version, lines, fields);
  }

  /** A parser for the next message succeeds on exactly the streams that start with a message in full. */
  lemma SuccessMeansMessage(flag: bool, input: seq<Byte>)
    ensures Parsed(Progress(FreshParser(flag), input)).parser.state == Success <==>
      exists m, rest :: StartsWith(input, m, rest) && HasArrived(m, rest)
  {
    hide IsHead, FindCrlf, Lines, Parsed, ContentLength, IsLastField, ParsedRequestLine, WithFields, HeadersEnded;
    var p := FreshParser(flag);
    SuccessNeedsLines(p, input);
    if Parsed(Progress(p, input)).parser.state == Success {
      var line, later :|
        && input == line + CRLF + later && FindCrlf(line).None? && ParsedRequestLine(p.request, line).ok
        && HasHeaders(p.(state := ExpectHeaders, request := ParsedRequestLine(p.request, line).request), later);
      var lines, rest :| AreHeaderLines(lines) && later == Lines(lines) + CRLF + rest;
      var m := ReadHeadIsThere(p, line, lines);
      assert later == Lines(lines) + (CRLF + rest);
      MessageIsRead(m, flag, rest);
      assert StartsWith(input, m, rest) && HasArrived(m, rest);
    }
    forall m, rest | StartsWith(input, m, rest) && HasArrived(m, rest)
      ensures Parsed(Progress(p, input)).parser.state == Success
    {
      assert m.verb in {"GET", "POST"} by { VerbIsSupported(m); }
      MessageIsRead(m, flag, rest);
    }
  }

  lemma VerbIsSupported(m: Message)
    requires IsHead(m)
    ensures m.verb in {"GET", "POST"}
  {
  }

  /** Until a line has come nothing is taken, and a line that is no request line is refused and stays unread. */
  lemma FirstLineDecides(flag: bool, input: seq<Byte>)
    ensures
      var end := Parsed(Progress(FreshParser(flag), input));
      match FindCrlf(input)
      case None => end == Progress(FreshParser(flag), input)
      case Some(i) =>
        !IsSupportedLine(input[..i]) ==> end.parser.state == Fail && end.unread == input
  {
    hide FindCrlf, ParsedRequestLine, Parsed, IsSupportedLine;
    var start := Progress(FreshParser(flag), input);
    StepLeadsOn(start);
    if FindCrlf(input).Some? {
      var line := input[..FindCrlf(input).value];
      RequestLineGrammar(start.parser.request, line, []);
      if !ParsedRequestLine(start.parser.request, line).ok { FailStays(Step(start).value); }
    }
  }

  /** The header lines of `m` have been read, and nothing behind them. */
  ghost predicate IsStoppedBehind(m: Message, flag: bool, tail: seq<Byte>, end: Progress) {
    && end.unread == tail && end.parser.request.body == [] && end.parser.request.needClose == flag
    && forall key, value :: IsHeader(end.parser.request.headers, key, value) <==> IsLastField(m.fields, key, value)
  }

  /**
   Behind whole header lines the parser waits for the next one, and fails at one
   that is no header field; the lines before have been read, the rest stays.
   */
  lemma HeaderLineDecides(m: Message, flag: bool, tail: seq<Byte>)
    requires IsHead(m)
    ensures
      var end := Parsed(Progress(FreshParser(flag), m.line + CRLF + (Lines(m.lines) + tail)));
      match FindCrlf(tail)
      case None => end.parser.state == ExpectHeaders && IsStoppedBehind(m, flag, tail, end)
      case Some(i) =>
        i > 0 && (forall field :: !IsHeaderLine(tail[..i], field)) ==>
          end.parser.state == Fail && IsStoppedBehind(m, flag, tail, end)
  {
    var p := HeadIsRead(m, flag, tail);
    hide FindCrlf, IsHead, Lines, FieldOf, IsHeaderLine, IsLastField, IsHeader;
    StepLeadsOn(Progress(p, tail));
    if FindCrlf(tail).Some? {
      var line := tail[..FindCrlf(tail).value];
      if FieldOf(line).Some? {
        HeaderLineGrammar(line, FieldOf(line).value);
      } else {
        FailStays(Progress(p.(state := Fail), tail));
      }
    }
  }

  // ------------------------------------------------------------------ after a reset

  function WithClose(p: Parser, flag: bool): Parser {
    p.(request := p.request.(needClose := flag))
  }

  lemma LinesIgnoreClose(r: Request, line: seq<Byte>, flag: bool)
    ensures
      var o, q := ParsedRequestLine(r, line), ParsedRequestLine(r.(needClose := flag), line);
      q == Outcome(o.ok, o.request.(needClose := flag))
    ensures
      var o, q := ParsedHeaderLine(r, line), ParsedHeaderLine(r.(needClose := flag), line);
      q == Outcome(o.ok, o.request.(needClose := flag))
  {
    hide WordFrom, Trim, MethodOf, VersionOf, FieldOf;
  }

  lemma StepIgnoresClose(p: Parser, input: seq<Byte>, flag: bool)
    requires p.state in {ExpectRequestLine, ExpectHeaders}
    ensures
      var next, other := Step(Progress(p, input)), Step(Progress(WithClose(p, flag), input));
      if next.None? then other.None?
      else
        && other.Some? && other.value.unread == next.value.unread
        && other.value.parser ==
             (if next.value.parser.state in {ExpectBody, Success} then next.value.parser
              else WithClose(next.value.parser, other.value.parser.request.needClose))
        && (next.value.parser.state == ExpectHeaders ==> other.value.parser.request.needClose == flag)
  {
    hide ParsedRequestLine, ParsedHeaderLine, FindCrlf, ContentLength;
    if FindCrlf(input).Some? { LinesIgnoreClose(p.request, input[..FindCrlf(input).value], flag); }
  }

  /** `reset` leaves the close flag of the message before; no message that gets past its headers shows it. */
  lemma {:induction false} OldCloseFlagIsLost(p: Parser, input: seq<Byte>, flag: bool)
    requires p.state in {ExpectRequestLine, ExpectHeaders}
    ensures
      var end := Parsed(Progress(p, input));
      var other := Parsed(Progress(WithClose(p, flag), input));
      && other.parser.state == end.parser.state && other.unread == end.unread
      && (end.parser.state in {ExpectBody, Success} ==> other == end)
    decreases Measure(Progress(p, input))
  {
    hide Step, Parsed;
    var now, changed := Progress(p, input), Progress(WithClose(p, flag), input);
    StepIgnoresClose(p, input, flag);
    StepLeadsOn(now);
    StepLeadsOn(changed);
    if Step(now).Some? {
      var next, other := Step(now).value, Step(changed).value;
      match next.parser.state
      case Fail =>
        FailStays(next);
        FailStays(other);
      case ExpectHeaders => OldCloseFlagIsLost(next.parser, next.unread, flag);
      case ExpectRequestLine => OldCloseFlagIsLost(next.parser, next.unread, other.parser.request.needClose);
      case _ =>
    }
  }

  // ---------------------------------------------------------------- the class

  class HttpParser {
    var state: State
    var bodyLength: nat
    const request: HttpRequest

    function Value(): Parser
      reads this, request
    {
      Parser(state, bodyLength, request.Value())
    }

    constructor ()
      ensures Value() == FreshParser(false) && fresh(request)
    {
      state, bodyLength := ExpectRequestLine, 0;
      request := new HttpRequest();
    }

    /** `reset`, for the next message on the connection. */
    method Reset()
      modifies this, request
      ensures Value() == FreshParser(old(request.needClose))
    {
      state, bodyLength := ExpectRequestLine, 0;
      request.Reset();
    }

    /** The line that ends at `end` in the storage. */
    method UnreadUpTo(buffer: MutableSizeTcpBuffer, end: nat) returns (line: seq<Byte>)
      requires buffer.Valid() && buffer.readOffset <= end <= buffer.writeOffset
      ensures line == buffer.Contents()[..end - buffer.readOffset]
    {
      line := buffer.storage[buffer.readOffset..end];
    }

    /** Calling it again after success is fatal. */
    method Parse(buffer: MutableSizeTcpBuffer) returns (ok: bool)
      requires buffer.Valid() && state != Success
      modifies this, request, buffer`readOffset
      ensures buffer.Valid()
      ensures Progress(Value(), buffer.Contents()) == Parsed(Progress(old(Value()), old(buffer.Contents())))
      ensures ok <==> state != Fail
    {
      hide Step;
      if state == Fail {
        FailStays(Progress(Value(), buffer.Contents()));
        return false;
      }
      if state == ExpectRequestLine {
        ok := ParseRequestLine(buffer);
        if state != ExpectHeaders { return; }
      }
      if state == ExpectHeaders {
        ok := ParseHeaders(buffer);
        if state != ExpectBody { return; }
      }
      ok := ParseBody(buffer);
    }

    /** The request line, if all of it has arrived. */
    method ParseRequestLine(buffer: MutableSizeTcpBuffer) returns (ok: bool)
      requires buffer.Valid() && state == ExpectRequestLine
      modifies this, request, buffer`readOffset
      ensures buffer.Valid()
      ensures Parsed(Progress(Value(), buffer.Contents())) == Parsed(Progress(old(Value()), old(buffer.Contents())))
      ensures state != ExpectHeaders ==> Step(Progress(Value(), buffer.Contents())) == None
      ensures state in {ExpectRequestLine, ExpectHeaders, Fail} && (ok <==> state != Fail)
    {
      hide ParsedRequestLine, ParsedHeaderLine, FindCrlf, HeadersEnded, Extended, Forwarded, Parsed;
      ghost var unread := buffer.Contents();
      StepLeadsOn(Progress(Value(), unread));
      var lineEnd := buffer.GetNextCrlfPosition();
      if lineEnd == None { return true; }
      assert IsCrlf(unread, lineEnd.value - buffer.readOffset);
      var line := UnreadUpTo(buffer, lineEnd.value);
      ok := request.ParseRequestLine(line);
      if !ok {
        state := Fail;
        return;
      }
      buffer.ForwardReadPosition(|line| + 2);
      assert buffer.Contents() == unread[|line| + 2..];
      state := ExpectHeaders;
    }

    /** The header loop, up to the empty line or as far as the lines go. */
    method ParseHeaders(buffer: MutableSizeTcpBuffer) returns (ok: bool)
      requires buffer.Valid() && state == ExpectHeaders
      modifies this, request, buffer`readOffset
      ensures buffer.Valid()
      ensures Parsed(Progress(Value(), buffer.Contents())) == Parsed(Progress(old(Value()), old(buffer.Contents())))
      ensures state != ExpectBody ==> Step(Progress(Value(), buffer.Contents())) == None
      ensures state != ExpectRequestLine && (ok <==> state != Fail)
    {
      hide Step;
      var more := true;
      ok := true;
      while more
        invariant buffer.Valid() && state != ExpectRequestLine && (ok <==> state != Fail)
        invariant Parsed(Progress(Value(), buffer.Contents())) == Parsed(Progress(old(Value()), old(buffer.Contents())))
        invariant more ==> state == ExpectHeaders
        invariant !more && state != ExpectBody ==> Step(Progress(Value(), buffer.Contents())) == None
        decreases more, |buffer.Contents()|
      {
        more, ok := ParseNextHeader(buffer);
      }
    }

    /** One turn of the loop: a line, the empty line, or too little for either. */
    method ParseNextHeader(buffer: MutableSizeTcpBuffer) returns (more: bool, ok: bool)
      requires buffer.Valid() && state == ExpectHeaders
      modifies this, request, buffer`readOffset
      ensures buffer.Valid() && state != ExpectRequestLine && (ok <==> state != Fail)
      ensures
        var before := Progress(old(Value()), old(buffer.Contents()));
        var after := Progress(Value(), buffer.Contents());
        && Step(before) == (if after == before then None else Some(after))
        && (more ==> state == ExpectHeaders && |after.unread| < |before.unread|)
        && (!more && state != ExpectBody ==> Step(after) == None)
    {
      hide ParsedHeaderLine, FindCrlf, HeadersEnded, ParsedRequestLine, Extended, Forwarded;
      ghost var unread := buffer.Contents();
      var lineEnd := buffer.GetNextCrlfPosition();
      if lineEnd == None { return false, true; }
      assert IsCrlf(unread, lineEnd.value - buffer.readOffset);
      if lineEnd.value == buffer.readOffset {
        buffer.ForwardReadPosition(2);
        assert buffer.Contents() == unread[2..];
        ok := EndHeaders();
        return false, ok;
      }
      var line := UnreadUpTo(buffer, lineEnd.value);
      ok := request.ParseHeaderLine(line);
      if !ok {
        state := Fail;
        return false, false;
      }
      buffer.ForwardReadPosition(|line| + 2);
      assert buffer.Contents() == unread[|line| + 2..];
      more := true;
    }

    /** What follows the empty line. */
    method EndHeaders() returns (ok: bool)
      requires state == ExpectHeaders
      modifies this, request
      ensures Value() == HeadersEnded(old(Value()))
      ensures state in {Success, ExpectBody, Fail} && (ok <==> state != Fail)
    {
      var headers := request.headers;
      request.needClose := "Connection" in headers && headers["Connection"] == "close";
      var maybeHasBody := request.methodType == POST && "Content-Length" in headers;
      if !maybeHasBody {
        state := Success;
        return true;
      }
      var length := ContentLength(headers["Content-Length"]);
      if length == None {
        bodyLength := 0;
        state := Fail;
        return false;
      }
      bodyLength := length.value;
      state := if bodyLength == 0 then Success else ExpectBody;
      ok := true;
    }

    method ParseBody(buffer: MutableSizeTcpBuffer) returns (ok: bool)
      requires buffer.Valid() && state == ExpectBody
      modifies this, request, buffer`readOffset
      ensures buffer.Valid() && ok && state in {ExpectBody, Success}
      ensures Progress(Value(), buffer.Contents()) == Parsed(Progress(old(Value()), old(buffer.Contents())))
    {
      var size := buffer.GetReadableSize();
      if size < bodyLength { return true; }
      request.body := UnreadUpTo(buffer, buffer.readOffset + bodyLength);
      buffer.ForwardReadPosition(bodyLength);
      state := Success;
      ok := true;
    }
  }
}
