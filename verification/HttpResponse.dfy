/**
 Printing a message (`HttpResponse`), and reading the print back with the
 request parser's header and body states.
 */
module HttpResponse {
  import opened TcpBuffer
  import opened Wrappers
  import opened HttpRequest
  import opened HttpParser
  import Format

  type Headers = map<seq<Byte>, seq<Byte>>

  /** `status` is the status code with its description, if one has been set. */
  datatype Response = Response(version: Version, status: Option<seq<Byte>>, headers: Headers, body: seq<Byte>)

  predicate CanBeDumped(r: Response) {
    r.version != UnsupportedVersion && r.status.Some?
  }

  function VersionText(v: Version): seq<Byte>
    requires v != UnsupportedVersion
  {
    if v == Http10 then "HTTP/1.0" else "HTTP/1.1"
  }

  lemma VersionTextIsRead(v: Version)
    requires v != UnsupportedVersion
    ensures VersionOf(VersionText(v)) == v
  {
    if v == Http11 { assert VersionText(v)[7] != "HTTP/1.0"[7]; }
  }

  /** The order in which the hash table happens to list the headers. */
  predicate IsOrderOf(order: seq<seq<Byte>>, headers: Headers) {
    && (forall k :: 0 <= k < |order| ==> order[k] in headers)
    && (forall key :: key in headers ==> key in order)
    && (forall j, k :: 0 <= j < k < |order| ==> order[j] != order[k])
  }

  function HeaderLine(headers: Headers, key: seq<Byte>): seq<Byte>
    requires key in headers
  {
    key + ":" + headers[key]
  }

  function HeaderLines(headers: Headers, order: seq<seq<Byte>>): (lines: seq<seq<Byte>>)
    requires forall k :: 0 <= k < |order| ==> order[k] in headers
    ensures |lines| == |order|
    ensures forall k :: 0 <= k < |order| ==> lines[k] == HeaderLine(headers, order[k])
  {
    seq(|order|, k requires 0 <= k < |order| => HeaderLine(headers, order[k]))
  }

  function StatusLine(r: Response): seq<Byte>
    requires CanBeDumped(r)
  {
    VersionText(r.version) + " " + r.status.value
  }

  /** What `dump_to_tcp_buffer` appends. */
  function Dumped(r: Response, order: seq<seq<Byte>>): seq<Byte>
    requires CanBeDumped(r) && IsOrderOf(order, r.headers)
  {
    StatusLine(r) + CRLF + (Lines(HeaderLines(r.headers, order)) + CRLF + r.body)
  }

  lemma DumpedInParts(r: Response, order: seq<seq<Byte>>)
    requires CanBeDumped(r) && IsOrderOf(order, r.headers)
    ensures
      var section := StatusLine(r) + CRLF + Lines(HeaderLines(r.headers, order)) + CRLF;
      Dumped(r, order) == section + r.body && (r.body == [] ==> Dumped(r, order) == section)
  {
  }

  // ------------------------------------------------------------------ round trip

  predicate IsKey(key: seq<Byte>) {
    key != [] && IsTrimmed(BLANKS, key) && ':' !in key && FindCrlf(key).None?
  }

  predicate IsValue(value: seq<Byte>) {
    IsTrimmed(BLANKS, value) && FindCrlf(value).None?
  }

  predicate AreHeaders(headers: Headers) {
    forall key :: key in headers ==> IsKey(key) && IsValue(headers[key])
  }

  /** A printed field reads back as itself exactly when key and value are trimmed and the key has no colon. */
  lemma FieldRoundTrip(key: seq<Byte>, value: seq<Byte>)
    ensures FieldOf(key + ":" + value) == Some(Field(key, value)) <==>
      key != [] && IsTrimmed(BLANKS, key) && ':' !in key && IsTrimmed(BLANKS, value)
  {
    hide FieldOf;
    var field := Field(key, value);
    HeaderLineGrammar(key + ":" + value, field);
    assert IsPadded(BLANKS, key, [], key, []) && IsPadded(BLANKS, value, [], value, []);
    assert IsBlankedField(key, value, field);
  }

  /** The headers of the keys in `order`. */
  function Selected(headers: Headers, order: seq<seq<Byte>>): Headers
    requires forall k :: 0 <= k < |order| ==> order[k] in headers
  {
    map key | key in order :: headers[key]
  }

  lemma PrintedLineIsALine(key: seq<Byte>, value: seq<Byte>)
    requires IsKey(key) && IsValue(value)
    ensures FindCrlf(key + ":" + value).None? && FieldOf(key + ":" + value) == Some(Field(key, value))
  {
    hide FieldOf;
    FieldRoundTrip(key, value);
    var line := key + ":" + value;
    forall j | 0 <= j < |line| ensures !IsCrlf(line, j) {
      assert !IsCrlf(key, j) && !IsCrlf(value, j - |key| - 1);
    }
  }

  /** Entering the printed fields, in any order and even repeatedly, adds those headers. */
  lemma {:induction false} FieldsAreEntered(r: Request, headers: Headers, order: seq<seq<Byte>>)
    requires AreHeaders(headers) && forall k :: 0 <= k < |order| ==> order[k] in headers
    ensures WithFields(r, HeaderLines(headers, order)) ==
      r.(headers := r.headers + Selected(headers, order))
    decreases |order|
  {
    hide FieldOf, IsKey, IsValue, HeaderLine, HeaderLines, Selected;
    if order == [] {
      assert r.headers + Selected(headers, order) == r.headers by { SelectNone(headers); }
    } else {
      var key := order[0];
      var r1 := r.(headers := r.headers[key := headers[key]]);
      FirstLine(r, headers, order);
      FieldsAreEntered(r1, headers, order[1..]);
      SelectFirst(r.headers, headers, order);
    }
  }

  lemma SelectNone(headers: Headers)
    ensures Selected(headers, []) == map[]
  {
  }

  lemma SelectFirst(entered: Headers, headers: Headers, order: seq<seq<Byte>>)
    requires order != [] && forall k :: 0 <= k < |order| ==> order[k] in headers
    ensures entered[order[0] := headers[order[0]]] + Selected(headers, order[1..]) == entered + Selected(headers, order)
  {
    assert order == [order[0]] + order[1..];
  }

  lemma FirstLine(r: Request, headers: Headers, order: seq<seq<Byte>>)
    requires AreHeaders(headers) && order != [] && forall k :: 0 <= k < |order| ==> order[k] in headers
    ensures
      var lines := HeaderLines(headers, order);
      && lines[1..] == HeaderLines(headers, order[1..])
      && ParsedHeaderLine(r, lines[0]).request == r.(headers := r.headers[order[0] := headers[order[0]]])
  {
    hide FieldOf, IsKey, IsValue;
    PrintedLineIsALine(order[0], headers[order[0]]);
  }

  /** The header section reads back as the very same headers, whatever the iteration order. */
  lemma HeadersRoundTrip(p: Parser, headers: Headers, order: seq<seq<Byte>>, body: seq<Byte>)
    requires p.state == ExpectHeaders && p.request.headers == map[]
    requires AreHeaders(headers) && IsOrderOf(order, headers)
    ensures Parsed(Progress(p, Lines(HeaderLines(headers, order)) + CRLF + body)) ==
      Parsed(Progress(HeadersEnded(p.(request := p.request.(headers := headers))), body))
  {
    hide Parsed, HeadersEnded, FieldOf, IsKey, IsValue, WithFields, Lines;
    var lines := HeaderLines(headers, order);
    forall k | 0 <= k < |lines| ensures lines[k] != [] && FindCrlf(lines[k]).None? && FieldOf(lines[k]).Some? {
      PrintedLineIsALine(order[k], headers[order[k]]);
    }
    HeaderSectionIsRead(p, lines, body);
    FieldsAreEntered(p.request, headers, order);
    assert p.request.headers + Selected(headers, order) == headers;
  }

  /** Read back with nothing missing and nothing left over. */
  predicate IsRecovered(p: Parser, headers: Headers, body: seq<Byte>, end: Progress) {
    && end.parser.state == Success && end.unread == []
    && end.parser.request.headers == headers && end.parser.request.body == body
  }

  /** A POST message reads back whole exactly when its Content-Length is the length of its body. */
  lemma BodyRoundTrip(p: Parser, headers: Headers, order: seq<seq<Byte>>, body: seq<Byte>)
    requires p.state == ExpectHeaders && p.request.headers == map[] && p.request.body == []
    requires AreHeaders(headers) && IsOrderOf(order, headers)
    requires p.request.methodType == POST && "Content-Length" in headers
    ensures IsRecovered(p, headers, body, Parsed(Progress(p, Lines(HeaderLines(headers, order)) + CRLF + body))) <==>
      ContentLength(headers["Content-Length"]) == Some(|body|)
  {
    HeadersRoundTrip(p, headers, order, body);
    hide ContentLength, IsKey, IsValue;
    var q := HeadersEnded(p.(request := p.request.(headers := headers)));
    var start := Progress(q, body);
    if q.state == ExpectBody && q.bodyLength <= |body| {
      assert Step(start).value.parser.state == Success;
      assert Parsed(start) == Step(start).value;
      assert q.bodyLength == |body| ==> body[..q.bodyLength] == body && body[q.bodyLength..] == [];
    } else {
      assert Step(start) == None;
    }
  }

  /** A printed body for a GET request is not read as a body. */
  lemma BodyOfGetStaysUnread(p: Parser, headers: Headers, order: seq<seq<Byte>>, body: seq<Byte>)
    requires p.state == ExpectHeaders && p.request.headers == map[] && p.request.methodType != POST
    requires AreHeaders(headers) && IsOrderOf(order, headers)
    ensures
      var end := Parsed(Progress(p, Lines(HeaderLines(headers, order)) + CRLF + body));
      end.parser.state == Success && end.unread == body && end.parser.request.headers == headers
      && end.parser.request.body == p.request.body
  {
    HeadersRoundTrip(p, headers, order, body);
    hide ContentLength, IsKey, IsValue;
    assert Step(Progress(HeadersEnded(p.(request := p.request.(headers := headers))), body)) == None;
  }

  /** A dump is the status line, a line for each header in the order given, an empty line and the body. */
  lemma DumpStartsWithStatusLine(r: Response, order: seq<seq<Byte>>)
    requires CanBeDumped(r) && IsOrderOf(order, r.headers) && FindCrlf(r.status.value).None?
    ensures
      var line := (if r.version == Http10 then "HTTP/1.0 " else "HTTP/1.1 ") + r.status.value;
      var lines := HeaderLines(r.headers, order);
      && FindCrlf(Dumped(r, order)) == Some(|line|)
      && Dumped(r, order) == line + "\r\n" + (Lines(lines) + "\r\n" + r.body)
      && Dumped(r, order)[|line| + 2..] == Lines(lines) + CRLF + r.body
      && forall k :: 0 <= k < |order| ==> lines[k] == order[k] + ":" + r.headers[order[k]]
  {
    hide HeaderLines, Lines, FindCrlf;
    var version := if r.version == Http10 then "HTTP/1.0 " else "HTTP/1.1 ";
    var line := version + r.status.value;
    assert StatusLine(r) == line by { assert VersionText(r.version) + " " == version; }
    assert '\r' !in version by { NoReturnInVersion(r.version); }
    forall j ensures !IsCrlf(line, j) {
      if |version| <= j < |line| {
        assert line[j] == r.status.value[j - |version|];
        assert !IsCrlf(r.status.value, j - |version|);
      } else if 0 <= j < |line| {
        assert line[j] == version[j];
      }
    }
    assert FindCrlf(line).None?;
    LineIsFound(line, Lines(HeaderLines(r.headers, order)) + CRLF + r.body);
  }

  lemma NoReturnInVersion(v: Version)
    ensures '\r' !in (if v == Http10 then "HTTP/1.0 " else "HTTP/1.1 ")
  {
  }

  // ------------------------------------------------------------------ the body's length

  const CONTENT_LENGTH := "Content-Length"

  /** The response with a new body that is announced to have `length` bytes. */
  function WithLength(r: Response, body: seq<Byte>, length: nat): Response {
    r.(headers := r.headers[CONTENT_LENGTH := Format.Decimal(length)], body := body)
  }

  /**
   A body given by reference makes a message whose dump, behind its status line,
   reads back with that body; a body given by move is measured after it has been moved
   from, so only the empty one does.
   */
  lemma SetBodyRoundTrip(p: Parser, r: Response, body: seq<Byte>, moved: bool, order: seq<seq<Byte>>)
    requires p.state == ExpectHeaders && p.request.headers == map[] && p.request.body == []
    requires p.request.methodType == POST && AreHeaders(r.headers) && |body| <= LONG_MAX && CanBeDumped(r)
    requires IsOrderOf(order, WithLength(r, body, if moved then 0 else |body|).headers)
    ensures
      var s := WithLength(r, body, if moved then 0 else |body|);
      && CanBeDumped(s) && |StatusLine(s)| + 2 <= |Dumped(s, order)|
      && (IsRecovered(p, s.headers, body, Parsed(Progress(p, Dumped(s, order)[|StatusLine(s)| + 2..]))) <==>
            !moved || body == [])
  {
    var length := if moved then 0 else |body|;
    var s := WithLength(r, body, length);
    LengthIsReadBack(length);
    hide ContentLength, Parsed, HeaderLines, IsRecovered, StatusLine;
    LengthIsAHeader(length);
    BodyRoundTrip(p, s.headers, order, body);
    assert Dumped(s, order)[|StatusLine(s)| + 2..] == Lines(HeaderLines(s.headers, order)) + CRLF + body;
  }

  lemma LengthIsAHeader(n: nat)
    ensures IsKey(CONTENT_LENGTH) && IsValue(Format.Decimal(n))
  {
    hide Format.Digits, FindCrlf;
    var s := Format.Digits(n);
    forall k | 0 <= k < |s| ensures s[k] !in BLANKS { assert Format.IsDigit(10, s[k]); }
    NoReturnNoCrlf(s);
    var key := CONTENT_LENGTH;
    assert |key| == 14 && key[0] == 'C' && key[13] == 'h';
    forall k | 0 <= k < |key| ensures key[k] != ':' && key[k] != '\r' {}
    NoReturnNoCrlf(key);
  }

  lemma NoReturnNoCrlf(s: seq<Byte>)
    requires forall k :: 0 <= k < |s| ==> s[k] != '\r'
    ensures FindCrlf(s).None?
  {
    forall j | 0 <= j < |s| ensures !IsCrlf(s, j) {}
  }

  // ---------------------------------------------------------------- the class

  class HttpResponse {
    var version: Version
    var status: Option<seq<Byte>>
    var headers: Headers
    var body: seq<Byte>

    function Value(): Response
      reads this
    {
      Response(version, status, headers, body)
    }

    constructor (v: Version)
      ensures Value() == Response(v, None, map[], [])
    {
      version, status, headers, body := v, None, map[], [];
    }

    method SetHeader(key: seq<Byte>, value: seq<Byte>)
      modifies this
      ensures GetHeader(key) == value && key in headers
      ensures forall k :: k != key ==> GetHeader(k) == old(GetHeader(k)) && (k in headers <==> k in old(headers))
      ensures version == old(version) && status == old(status) && body == old(body)
    {
      headers := headers[key := value];
    }

    function GetHeader(key: seq<Byte>): seq<Byte>
      reads this
    {
      if key in headers then headers[key] else []
    }

    method EraseHeader(key: seq<Byte>) returns (found: bool)
      modifies this
      ensures found <==> key in old(headers)
      ensures Value() == old(Value()).(headers := map k | k in old(headers) && k != key :: old(headers)[k])
      ensures GetHeader(key) == []
    {
      found := key in headers;
      headers := headers - {key};
    }

    /** `set_body`; `moved` tells the overload that takes its argument by move. */
    method SetBody(newBody: seq<Byte>, moved: bool)
      modifies this
      ensures Value() == WithLength(old(Value()), newBody, if moved then 0 else |newBody|)
      ensures body == newBody && CONTENT_LENGTH in headers
      ensures GetHeader("Content-Length") == Format.Decimal(if moved then 0 else |newBody|)
      ensures forall k :: k != "Content-Length" ==>
        GetHeader(k) == old(GetHeader(k)) && (k in headers <==> k in old(headers))
      ensures version == old(version) && status == old(status)
    {
      var argument := newBody;
      body := argument;
      if moved { argument := []; }
      ghost var before := headers;
      SetHeader(CONTENT_LENGTH, Format.Decimal(|argument|));
      forall k | k in headers && k != CONTENT_LENGTH ensures headers[k] == before[k] {
        assert headers[k] == GetHeader(k);
      }
      assert headers == before[CONTENT_LENGTH := Format.Decimal(|argument|)];
    }

    /** Dumping before the status code is set is fatal. */
    method DumpToTcpBuffer(buffer: MutableSizeTcpBuffer, order: seq<seq<Byte>>)
      requires CanBeDumped(Value()) && IsOrderOf(order, headers) && buffer.Valid()
      modifies buffer, buffer.storage
      ensures buffer.Valid()
      ensures buffer.Contents() == old(buffer.Contents()) + Dumped(Value(), order)
    {
      hide HeaderLines, Lines, StatusLine, Dumped;
      ghost var start := buffer.Contents();
      ghost var printed := DumpStatusLine(buffer);
      printed := Print(buffer, CRLF, start, printed);
      printed := DumpHeaders(buffer, order, start, printed);
      printed := Print(buffer, CRLF, start, printed);
      DumpedInParts(Value(), order);
      if body != [] { printed := Print(buffer, body, start, printed); }
    }

    method DumpStatusLine(buffer: MutableSizeTcpBuffer) returns (ghost printed: seq<Byte>)
      requires CanBeDumped(Value()) && buffer.Valid()
      modifies buffer, buffer.storage
      ensures buffer.Valid() && (buffer.storage == old(buffer.storage) || fresh(buffer.storage))
      ensures printed == StatusLine(Value()) && buffer.Contents() == old(buffer.Contents()) + printed
    {
      hide VersionText;
      ghost var start := buffer.Contents();
      assert start == start + [];
      printed := Print(buffer, VersionText(version), start, []);
      printed := Print(buffer, " ", start, printed);
      printed := Print(buffer, status.value, start, printed);
    }

    method DumpHeaders(
        buffer: MutableSizeTcpBuffer, order: seq<seq<Byte>>, ghost start: seq<Byte>, ghost before: seq<Byte>)
      returns (ghost printed: seq<Byte>)
      requires (forall k :: 0 <= k < |order| ==> order[k] in headers) && buffer.Valid()
      requires buffer.Contents() == start + before
      modifies buffer, buffer.storage
      ensures buffer.Valid() && (buffer.storage == old(buffer.storage) || fresh(buffer.storage))
      ensures buffer.Contents() == start + printed && printed == before + Lines(HeaderLines(headers, order))
    {
      hide HeaderLines, HeaderLine;
      ghost var lines := HeaderLines(headers, order);
      printed := before;
      for k := 0 to |order|
        invariant buffer.Valid() && (buffer.storage == old(buffer.storage) || fresh(buffer.storage))
        invariant buffer.Contents() == start + printed
        invariant printed + Lines(lines[k..]) == before + Lines(lines)
      {
        LinesFrom(printed, lines, k);
        printed := DumpHeader(buffer, order[k], start, printed);
      }
    }

    method DumpHeader(buffer: MutableSizeTcpBuffer, key: seq<Byte>, ghost start: seq<Byte>, ghost before: seq<Byte>)
      returns (ghost printed: seq<Byte>)
      requires key in headers && buffer.Valid() && buffer.Contents() == start + before
      modifies buffer, buffer.storage
      ensures buffer.Valid() && (buffer.storage == old(buffer.storage) || fresh(buffer.storage))
      ensures printed == before + (HeaderLine(headers, key) + CRLF) && buffer.Contents() == start + printed
    {
      printed := Print(buffer, key, start, before);
      printed := Print(buffer, ":", start, printed);
      assert printed == before + (key + ":");
      printed := Print(buffer, headers[key], start, printed);
      assert printed == before + HeaderLine(headers, key);
      printed := Print(buffer, CRLF, start, printed);
    }
  }

  lemma LinesFrom(before: seq<Byte>, lines: seq<seq<Byte>>, k: nat)
    requires k < |lines|
    ensures before + Lines(lines[k..]) == before + (lines[k] + CRLF) + Lines(lines[k + 1..])
  {
    assert lines[k..][1..] == lines[k + 1..];
  }

  /** `buffer.append`, where `printed` is what has been appended before. */
  method Print(buffer: MutableSizeTcpBuffer, data: seq<Byte>, ghost start: seq<Byte>, ghost printed: seq<Byte>)
    returns (ghost now: seq<Byte>)
    requires buffer.Valid() && buffer.Contents() == start + printed
    modifies buffer, buffer.storage
    ensures buffer.Valid() && (buffer.storage == old(buffer.storage) || fresh(buffer.storage))
    ensures now == printed + data && buffer.Contents() == start + now
  {
    hide Extended;
    buffer.Append(data);
    now := printed + data;
  }
}
