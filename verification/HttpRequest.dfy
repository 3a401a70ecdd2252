/**
 An HTTP request and the two line parsers (`HttpRequest`).  The grammar is that
 of section 3.1.1 (request line) and section 3.2 (header fields) of RFC 7230,
 as lenient about blanks as the code is.
 */
module HttpRequest {
  import opened TcpBuffer
  import opened Wrappers

  datatype Method = UnsupportedMethod | GET | POST

  datatype Version = UnsupportedVersion | Http10 | Http11

  datatype Request = Request(
    methodType: Method,
    path: seq<Byte>,
    versionType: Version,
    headers: map<seq<Byte>, seq<Byte>>,
    needClose: bool,
    body: seq<Byte>)

  // -------------------------------------------------------------------- blanks

  const SPACE: set<Byte> := {' '}

  /** What `isspace` accepts. */
  const BLANKS: set<Byte> := {' ', '\t', '\n', '\U{0B}', '\U{0C}', '\r'}

  predicate AllIn(skip: set<Byte>, s: seq<Byte>) {
    forall k :: 0 <= k < |s| ==> s[k] in skip
  }

  /** Neither end is to be skipped. */
  predicate IsTrimmed(skip: set<Byte>, s: seq<Byte>) {
    s != [] ==> s[0] !in skip && s[|s| - 1] !in skip
  }

  /** The first position from `i` on that is not to be skipped, or the end. */
  function SkipFrom(skip: set<Byte>, s: seq<Byte>, i: nat): (r: nat)
    requires i <= |s|
    ensures i <= r <= |s| && forall k :: i <= k < r ==> s[k] in skip
    ensures r < |s| ==> s[r] !in skip
    decreases |s| - i
  {
    if i < |s| && s[i] in skip then SkipFrom(skip, s, i + 1) else i
  }

  /** The end of `s` without the trailing part to be skipped. */
  function SkipBack(skip: set<Byte>, s: seq<Byte>): (r: nat)
    ensures r <= |s| && forall k :: r <= k < |s| ==> s[k] in skip
    ensures r > 0 ==> s[r - 1] !in skip
  {
    if s != [] && s[|s| - 1] in skip then SkipBack(skip, s[..|s| - 1]) else |s|
  }

  /** `s` without the blanks at either end. */
  function Trim(skip: set<Byte>, s: seq<Byte>): seq<Byte> {
    var rest := s[SkipFrom(skip, s, 0)..];
    rest[..SkipBack(skip, rest)]
  }

  predicate IsPadded(skip: set<Byte>, s: seq<Byte>, before: seq<Byte>, t: seq<Byte>, after: seq<Byte>) {
    s == before + t + after && AllIn(skip, before) && AllIn(skip, after)
  }

  lemma {:induction false} SkipFromAt(skip: set<Byte>, s: seq<Byte>, i: nat, r: nat)
    requires i <= r <= |s| && (forall k :: i <= k < r ==> s[k] in skip) && (r < |s| ==> s[r] !in skip)
    ensures SkipFrom(skip, s, i) == r
    decreases r - i
  {
    if i < r {
      SkipFromAt(skip, s, i + 1, r);
    }
  }

  lemma {:induction false} SkipBackAt(skip: set<Byte>, s: seq<Byte>, r: nat)
    requires r <= |s| && (forall k :: r <= k < |s| ==> s[k] in skip) && (r > 0 ==> s[r - 1] !in skip)
    ensures SkipBack(skip, s) == r
  {
    if r < |s| {
      SkipBackAt(skip, s[..|s| - 1], r);
    }
  }

  /** Trimming undoes padding. */
  lemma TrimOfPadded(skip: set<Byte>, s: seq<Byte>, before: seq<Byte>, t: seq<Byte>, after: seq<Byte>)
    requires IsPadded(skip, s, before, t, after) && IsTrimmed(skip, t)
    ensures Trim(skip, s) == t
  {
    if t == [] {
      SkipFromAt(skip, s, 0, |s|);
    } else {
      assert s[|before|] == t[0];
      SkipFromAt(skip, s, 0, |before|);
      var rest := s[|before|..];
      assert rest == t + after && rest[|t| - 1] == t[|t| - 1];
      SkipBackAt(skip, rest, |t|);
    }
  }

  /** What trimming leaves is the middle part between blanks, and only that is. */
  lemma TrimIsTheMiddle(skip: set<Byte>, s: seq<Byte>, t: seq<Byte>)
    ensures t == Trim(skip, s) <==>
      IsTrimmed(skip, t) && exists before, after :: IsPadded(skip, s, before, t, after)
  {
    var lo := SkipFrom(skip, s, 0);
    var rest := s[lo..];
    var hi := SkipBack(skip, rest);
    assert rest == rest[..hi] + rest[hi..];
    assert IsPadded(skip, s, s[..lo], Trim(skip, s), rest[hi..]);
    assert hi > 0 ==> rest[0] !in skip;
    forall before, after | IsTrimmed(skip, t) && IsPadded(skip, s, before, t, after) ensures t == Trim(skip, s) {
      TrimOfPadded(skip, s, before, t, after);
    }
  }

  // ------------------------------------------------------------- the request line

  /** The first position of `c` from `i` on (`memchr`). */
  function FindByte(c: Byte, s: seq<Byte>, i: nat): (r: Option<nat>)
    requires i <= |s|
    ensures r.Some? ==> i <= r.value < |s| && s[r.value] == c && forall k :: i <= k < r.value ==> s[k] != c
    ensures r.None? ==> forall k :: i <= k < |s| ==> s[k] != c
    decreases |s| - i
  {
    if i == |s| then None else if s[i] == c then Some(i) else FindByte(c, s, i + 1)
  }

  lemma FindByteAt(c: Byte, s: seq<Byte>, i: nat, r: nat)
    requires i <= r < |s| && s[r] == c && forall k :: i <= k < r ==> s[k] != c
    ensures FindByte(c, s, i) == Some(r)
  {
  }

  function MethodOf(text: seq<Byte>): Method {
    if text == "GET" then GET else if text == "POST" then POST else UnsupportedMethod
  }

  function VersionOf(text: seq<Byte>): Version {
    if text == "HTTP/1.0" then Http10 else if text == "HTTP/1.1" then Http11 else UnsupportedVersion
  }

  datatype Outcome = Outcome(ok: bool, request: Request)

  datatype Word = Word(start: nat, end: nat)

  /** The next part between spaces from `i` on; it is a part only if a space follows it. */
  function WordFrom(line: seq<Byte>, i: nat): (w: Option<Word>)
    requires i <= |line|
    ensures w.Some? ==> i <= w.value.start < w.value.end < |line|
  {
    var start := SkipFrom(SPACE, line, i);
    match FindByte(' ', line, start)
    case None => None
    case Some(end) => Some(Word(start, end))
  }

  /** A word is what stands between spaces and has none. */
  predicate IsWordOf(line: seq<Byte>, before: seq<Byte>, spaces: seq<Byte>, word: seq<Byte>, after: seq<Byte>) {
    && line == before + spaces + word + after
    && AllIn(SPACE, spaces) && word != [] && ' ' !in word && after != [] && after[0] == ' '
  }

  lemma WordIsFound(line: seq<Byte>, before: seq<Byte>, spaces: seq<Byte>, word: seq<Byte>, after: seq<Byte>)
    requires IsWordOf(line, before, spaces, word, after)
    ensures
      var start := |before| + |spaces|;
      && WordFrom(line, |before|) == Some(Word(start, start + |word|))
      && line[start..start + |word|] == word && line[start + |word|..] == after
  {
    var start := |before| + |spaces|;
    assert line[start..] == word + after;
    assert line[start] == word[0];
    forall k | |before| <= k < start ensures line[k] == spaces[k - |before|] {}
    SkipFromAt(SPACE, line, |before|, start);
    forall k | start <= k < start + |word| ensures line[k] == word[k - start] {}
    assert line[start + |word|] == after[0];
    FindByteAt(' ', line, start, start + |word|);
  }

  lemma FoundIsWord(line: seq<Byte>, i: nat)
    requires i <= |line| && WordFrom(line, i).Some?
    ensures
      var w := WordFrom(line, i).value;
      IsWordOf(line, line[..i], line[i..w.start], line[w.start..w.end], line[w.end..])
  {
  }

  /** The request after `parse_request_line`, which keeps what it has set before it fails. */
  function ParsedRequestLine(r: Request, line: seq<Byte>): Outcome {
    match WordFrom(line, 0)
    case None => Outcome(false, r)
    case Some(w) =>
      var r1 := r.(methodType := MethodOf(line[w.start..w.end]));
      if r1.methodType == UnsupportedMethod then Outcome(false, r1) else ParsedPathAndVersion(r1, line, w.end)
  }

  function ParsedPathAndVersion(r: Request, line: seq<Byte>, i: nat): Outcome
    requires i <= |line|
  {
    match WordFrom(line, i)
    case None => Outcome(false, r)
    case Some(w) =>
      var r1 := r.(path := line[w.start..w.end]);
      var version := Trim(SPACE, line[w.end..]);
      if version == [] then Outcome(false, r1)
      else Outcome(VersionOf(version) != UnsupportedVersion, r1.(versionType := VersionOf(version)))
  }

  /** The request line's grammar: its parts with spaces between and around them. */
  predicate SplitsInto(
      line: seq<Byte>, s1: seq<Byte>, verb: seq<Byte>, s2: seq<Byte>, path: seq<Byte>, s3: seq<Byte>,
      version: seq<Byte>, s4: seq<Byte>)
  {
    && line == s1 + verb + s2 + path + s3 + version + s4
    && AllIn(SPACE, s1) && AllIn(SPACE, s2) && AllIn(SPACE, s3) && AllIn(SPACE, s4)
    && s2 != [] && s3 != []
    && path != [] && ' ' !in path
  }

  /** The line consists of these three parts. */
  ghost predicate IsSplitLine(line: seq<Byte>, verb: seq<Byte>, path: seq<Byte>, version: seq<Byte>) {
    exists s1, s2, s3, s4 :: SplitsInto(line, s1, verb, s2, path, s3, version, s4)
  }

  /** The methods and versions the server takes. */
  ghost predicate IsSupportedLine(line: seq<Byte>) {
    exists verb, path, version ::
      verb in {"GET", "POST"} && version in {"HTTP/1.0", "HTTP/1.1"} && IsSplitLine(line, verb, path, version)
  }

  /** A line of the grammar, with what the tables make of verb and version. */
  ghost predicate IsRequestLine(line: seq<Byte>, m: Method, path: seq<Byte>, v: Version) {
    && m != UnsupportedMethod && v != UnsupportedVersion
    && exists verb, version :: IsSplitLine(line, verb, path, version) && MethodOf(verb) == m && VersionOf(version) == v
  }

  lemma PathAndVersionAreAccepted(
      r: Request, line: seq<Byte>, before: seq<Byte>, s2: seq<Byte>, path: seq<Byte>, s3: seq<Byte>, version: seq<Byte>,
      s4: seq<Byte>)
    requires IsWordOf(line, before, s2, path, s3 + version + s4) && AllIn(SPACE, s3) && AllIn(SPACE, s4)
    requires VersionOf(version) != UnsupportedVersion
    ensures ParsedPathAndVersion(r, line, |before|) ==
      Outcome(true, r.(path := path, versionType := VersionOf(version)))
  {
    hide WordFrom, Trim;
    WordIsFound(line, before, s2, path, s3 + version + s4);
    assert version != [] && IsTrimmed(SPACE, version);
    TrimOfPadded(SPACE, s3 + version + s4, s3, version, s4);
  }

  lemma MethodIsAWord(verb: seq<Byte>)
    requires MethodOf(verb) != UnsupportedMethod
    ensures verb != [] && ' ' !in verb
  {
  }

  lemma PartsAreWords(
      line: seq<Byte>, s1: seq<Byte>, verb: seq<Byte>, s2: seq<Byte>, path: seq<Byte>, s3: seq<Byte>,
      version: seq<Byte>, s4: seq<Byte>)
    requires SplitsInto(line, s1, verb, s2, path, s3, version, s4) && verb != [] && ' ' !in verb
    ensures IsWordOf(line, [], s1, verb, s2 + path + (s3 + version + s4))
    ensures IsWordOf(line, s1 + verb, s2, path, s3 + version + s4)
    ensures AllIn(SPACE, s3) && AllIn(SPACE, s4)
  {
    var tail := s3 + version + s4;
    var rest := s2 + path + tail;
    var front := s1 + verb;
    assert line == front + s2 + path + s3 + version + s4;
    assert line == front + s2 + path + tail;
    assert line == [] + s1 + verb + rest;
    assert rest[0] == s2[0] && tail[0] == s3[0];
  }

  lemma GrammarIsAccepted(
      r: Request, line: seq<Byte>, s1: seq<Byte>, verb: seq<Byte>, s2: seq<Byte>, path: seq<Byte>, s3: seq<Byte>,
      version: seq<Byte>, s4: seq<Byte>)
    requires SplitsInto(line, s1, verb, s2, path, s3, version, s4)
    requires MethodOf(verb) != UnsupportedMethod && VersionOf(version) != UnsupportedVersion
    ensures ParsedRequestLine(r, line) == Outcome(true,
      r.(methodType := MethodOf(verb), path := path, versionType := VersionOf(version)))
  {
    hide WordFrom, ParsedPathAndVersion, VersionOf, MethodOf, SplitsInto, IsWordOf;
    MethodIsAWord(verb);
    PartsAreWords(line, s1, verb, s2, path, s3, version, s4);
    WordIsFound(line, [], s1, verb, s2 + path + (s3 + version + s4));
    PathAndVersionAreAccepted(r.(methodType := MethodOf(verb)), line, s1 + verb, s2, path, s3, version, s4);
  }

  lemma AcceptedIsInGrammar(r: Request, line: seq<Byte>)
    requires ParsedRequestLine(r, line).ok
    ensures
      var after := ParsedRequestLine(r, line).request;
      && IsRequestLine(line, after.methodType, after.path, after.versionType)
      && after == r.(methodType := after.methodType, path := after.path, versionType := after.versionType)
  {
    hide WordFrom, Trim, MethodOf, VersionOf, SplitsInto, IsWordOf;
    var w1 := WordFrom(line, 0).value;
    var w2 := WordFrom(line, w1.end).value;
    var tail := line[w2.end..];
    TrimIsTheMiddle(SPACE, tail, Trim(SPACE, tail));
    var s3, s4 :| IsPadded(SPACE, tail, s3, Trim(SPACE, tail), s4);
    FoundWordsSplit(line, w1, w2, s3, Trim(SPACE, tail), s4);
  }

  lemma FoundWordsSplit(line: seq<Byte>, w1: Word, w2: Word, s3: seq<Byte>, version: seq<Byte>, s4: seq<Byte>)
    requires WordFrom(line, 0) == Some(w1) && WordFrom(line, w1.end) == Some(w2)
    requires version != [] && IsTrimmed(SPACE, version) && IsPadded(SPACE, line[w2.end..], s3, version, s4)
    ensures SplitsInto(line, line[..w1.start], line[w1.start..w1.end], line[w1.end..w2.start], line[w2.start..w2.end],
                       s3, version, s4)
  {
    hide WordFrom;
    FoundIsWord(line, 0);
    FoundIsWord(line, w1.end);
    hide IsWordOf, IsPadded, AllIn, IsTrimmed;
    assert line[w2.end..][0] == ' ';
    var front := line[..w2.end];
    assert line[..w2.start] == line[..w1.start] + line[w1.start..w1.end] + line[w1.end..w2.start];
    assert front == line[..w2.start] + line[w2.start..w2.end];
    assert line == front + line[w2.end..];
    assert front + (s3 + version + s4) == front + s3 + version + s4;
  }

  lemma AcceptedByTables(r: Request, line: seq<Byte>, m: Method, path: seq<Byte>, v: Version)
    ensures IsRequestLine(line, m, path, v) <==>
      ParsedRequestLine(r, line) == Outcome(true, r.(methodType := m, path := path, versionType := v))
  {
    hide ParsedRequestLine, SplitsInto;
    if ParsedRequestLine(r, line).ok { AcceptedIsInGrammar(r, line); }
    if IsRequestLine(line, m, path, v) {
      var verb, version :| IsSplitLine(line, verb, path, version) && MethodOf(verb) == m && VersionOf(version) == v;
      var s1, s2, s3, s4 :| SplitsInto(line, s1, verb, s2, path, s3, version, s4);
      GrammarIsAccepted(r, line, s1, verb, s2, path, s3, version, s4);
    }
  }

  /** The parser accepts the lines of the grammar, no others, and reads their parts. */
  lemma RequestLineGrammar(r: Request, line: seq<Byte>, path: seq<Byte>)
    ensures IsSplitLine(line, "GET", path, "HTTP/1.0") <==>
      ParsedRequestLine(r, line) == Outcome(true, r.(methodType := GET, path := path, versionType := Http10))
    ensures IsSplitLine(line, "GET", path, "HTTP/1.1") <==>
      ParsedRequestLine(r, line) == Outcome(true, r.(methodType := GET, path := path, versionType := Http11))
    ensures IsSplitLine(line, "POST", path, "HTTP/1.0") <==>
      ParsedRequestLine(r, line) == Outcome(true, r.(methodType := POST, path := path, versionType := Http10))
    ensures IsSplitLine(line, "POST", path, "HTTP/1.1") <==>
      ParsedRequestLine(r, line) == Outcome(true, r.(methodType := POST, path := path, versionType := Http11))
    ensures ParsedRequestLine(r, line).ok <==> IsSupportedLine(line)
  {
    hide ParsedRequestLine, IsSplitLine;
    forall m, p, v
      ensures IsRequestLine(line, m, p, v) <==>
        ParsedRequestLine(r, line) == Outcome(true, r.(methodType := m, path := p, versionType := v))
    {
      AcceptedByTables(r, line, m, p, v);
    }
    if ParsedRequestLine(r, line).ok { AcceptedIsInGrammar(r, line); }
    if IsSupportedLine(line) {
      var verb, p, version :|
        verb in {"GET", "POST"} && version in {"HTTP/1.0", "HTTP/1.1"} && IsSplitLine(line, verb, p, version);
      assert IsRequestLine(line, MethodOf(verb), p, VersionOf(version));
    }
  }

  /**
   A refused line still leaves what was read of it: the method if there was a word,
   the path if there was another one behind a method that is supported, and the
   unsupported version if a text followed that is no version.
   */
  lemma RefusedLineLeaves(r: Request, line: seq<Byte>)
    requires !ParsedRequestLine(r, line).ok
    ensures
      var left := ParsedRequestLine(r, line).request;
      match WordFrom(line, 0)
      case None => left == r
      case Some(w) =>
        var verb := line[w.start..w.end];
        if verb !in {"GET", "POST"} then left == r.(methodType := UnsupportedMethod)
        else
          var r1 := r.(methodType := if verb == "GET" then GET else POST);
          match WordFrom(line, w.end)
          case None => left == r1
          case Some(w2) =>
            var r2 := r1.(path := line[w2.start..w2.end]);
            left == if AllIn(SPACE, line[w2.end..]) then r2 else r2.(versionType := UnsupportedVersion)
  {
    hide WordFrom, Trim;
    match WordFrom(line, 0)
    case None =>
    case Some(w) =>
      match WordFrom(line, w.end)
      case None =>
      case Some(w2) => TrimmedToNothing(line[w2.end..]);
  }

  lemma TrimmedToNothing(s: seq<Byte>)
    ensures Trim(SPACE, s) == [] <==> AllIn(SPACE, s)
  {
    TrimIsTheMiddle(SPACE, s, Trim(SPACE, s));
    if AllIn(SPACE, s) { TrimOfPadded(SPACE, s, s, [], []); }
  }

  // ------------------------------------------------------- the searches as written

  /**
   The two searches for a space take their length from the start of the line,
   so a search from `i` looks at `i` bytes behind the line as well.
   */
  function FindInWindow(line: seq<Byte>, after: seq<Byte>, i: nat): (r: Option<nat>)
    requires i <= |line| <= |after|
    ensures r.Some? ==> i <= r.value < |line| + i && (line + after)[r.value] == ' '
  {
    FindByte(' ', line + after[..i], i)
  }

  /** The window gives the line's own answer exactly when the line has the space or the bytes behind it do not. */
  lemma SearchWindowAgrees(line: seq<Byte>, after: seq<Byte>, i: nat)
    requires i <= |line| <= |after|
    ensures FindInWindow(line, after, i) == FindByte(' ', line, i) <==>
      (FindByte(' ', line, i).Some? || ' ' !in after[..i])
    ensures FindByte(' ', line, i).None? && ' ' in after[..i] ==>
      FindInWindow(line, after, i).Some? && FindInWindow(line, after, i).value >= |line|
  {
    var memory := line + after[..i];
    match FindByte(' ', line, i)
    case Some(r) => FindByteAt(' ', memory, i, r);
    case None =>
      if FindByte(' ', memory, i).Some? {
        var r := FindByte(' ', memory, i).value;
        assert memory[r] == after[..i][r - |line|];
      } else {
        forall k | 0 <= k < i ensures after[..i][k] != ' ' { assert memory[|line| + k] == after[..i][k]; }
      }
  }

  /** `Threw`: `std::string(start, end)` with `start` behind `end` throws `std::length_error`. */
  datatype Written = Returned(outcome: Outcome) | Threw(request: Request)

  /** `parse_request_line` as it is written, with the bytes that follow the line. */
  function ParsedAsWritten(r: Request, line: seq<Byte>, after: seq<Byte>): Written
    requires |line| <= |after|
  {
    var methodStart := SkipFrom(SPACE, line, 0);
    if methodStart == |line| then Returned(Outcome(false, r))
    else
      match FindInWindow(line, after, methodStart)
      case None => Returned(Outcome(false, r))
      case Some(methodEnd) =>
        var r1 := r.(methodType := MethodOf((line + after)[methodStart..methodEnd]));
        if r1.methodType == UnsupportedMethod then Returned(Outcome(false, r1))
        else if methodEnd == |line| then Returned(Outcome(false, r1))
        else if methodEnd > |line| then Threw(r1.(path := []))
        else PathAsWritten(r1, line, after, methodEnd)
  }

  function PathAsWritten(r: Request, line: seq<Byte>, after: seq<Byte>, i: nat): Written
    requires i <= |line| <= |after|
  {
    var pathStart := SkipFrom(SPACE, line, i);
    if pathStart == |line| then Returned(Outcome(false, r))
    else
      match FindInWindow(line, after, pathStart)
      case None => Returned(Outcome(false, r))
      case Some(pathEnd) =>
        var r1 := r.(path := (line + after)[pathStart..pathEnd]);
        if pathEnd == |line| then Returned(Outcome(false, r1))
        else if pathEnd > |line| then Threw(r1)
        else
          var version := Trim(SPACE, line[pathEnd..]);
          if version == [] then Returned(Outcome(false, r1))
          else Returned(Outcome(VersionOf(version) != UnsupportedVersion, r1.(versionType := VersionOf(version))))
  }

  /** From `i` on the line has a last word that no space follows, but the bytes behind the line show one. */
  predicate Overruns(line: seq<Byte>, after: seq<Byte>, i: nat)
    requires i <= |line| <= |after|
  {
    var start := SkipFrom(SPACE, line, i);
    start < |line| && FindByte(' ', line, start).None? && ' ' in after[..start]
  }

  lemma PathAsWrittenAgrees(r: Request, line: seq<Byte>, after: seq<Byte>, i: nat)
    requires i <= |line| <= |after| && after != [] && after[0] == '\r'
    ensures
      if Overruns(line, after, i) then
        && PathAsWritten(r, line, after, i).Threw?
        && IsOverrunPath(r, line, after, i, PathAsWritten(r, line, after, i).request)
      else PathAsWritten(r, line, after, i) == Returned(ParsedPathAndVersion(r, line, i))
  {
    hide SkipFrom, FindByte, FindInWindow, Trim, VersionOf;
    var start := SkipFrom(SPACE, line, i);
    SearchWindowAgrees(line, after, start);
    var found := FindInWindow(line, after, start);
    if found.Some? { assert (line + after)[|line|] == '\r' && found.value != |line|; }
    if found.Some? && found.value < |line| { assert (line + after)[start..found.value] == line[start..found.value]; }
    if start == |line| { assert FindByte(' ', line, |line|).None? by { NoneAtEnd(line); } }
    if Overruns(line, after, i) { OverrunIsFound(line, after, start); }
  }

  /** The path has been set to the rest of the line and what stands in front of the first space behind it. */
  ghost predicate IsOverrunPath(r: Request, line: seq<Byte>, after: seq<Byte>, i: nat, left: Request)
    requires i <= |line|
  {
    exists k :: 0 <= k < |after| && after[k] == ' ' && ' ' !in after[..k]
                && left == r.(path := line[SkipFrom(SPACE, line, i)..] + after[..k])
  }

  lemma OverrunIsFound(line: seq<Byte>, after: seq<Byte>, start: nat)
    requires start <= |line| <= |after| && FindByte(' ', line, start).None? && FindInWindow(line, after, start).Some?
    requires FindInWindow(line, after, start).value >= |line|
    ensures
      var k := FindInWindow(line, after, start).value - |line|;
      && k < |after| && after[k] == ' ' && ' ' !in after[..k]
      && (line + after)[start..|line| + k] == line[start..] + after[..k]
  {
    hide FindByte;
    var k := FindInWindow(line, after, start).value - |line|;
    var memory := line + after[..start];
    forall j | 0 <= j < k ensures after[j] != ' ' { assert memory[|line| + j] == after[j]; }
  }

  lemma NoneAtEnd(line: seq<Byte>)
    ensures FindByte(' ', line, |line|).None?
  {
  }

  /** The word that a search for the method's end overruns with is no method: it has the line end in it. */
  lemma OverrunIsNoMethod(line: seq<Byte>, after: seq<Byte>, start: nat, end: nat)
    requires start < |line| < end <= |line| + |after| && after[0] == '\r'
    ensures MethodOf((line + after)[start..end]) == UnsupportedMethod
  {
    var word := (line + after)[start..end];
    assert word[|line| - start] == '\r';
    if MethodOf(word) != UnsupportedMethod { MethodHasNoReturn(word); }
  }

  lemma MethodHasNoReturn(word: seq<Byte>)
    requires MethodOf(word) != UnsupportedMethod
    ensures '\r' !in word
  {
  }

  /** The path runs over the line's end: method and path are there, but nothing that could be a version. */
  predicate PathOverruns(line: seq<Byte>, after: seq<Byte>)
    requires |line| <= |after|
  {
    match WordFrom(line, 0)
    case None => false
    case Some(w) => MethodOf(line[w.start..w.end]) != UnsupportedMethod && Overruns(line, after, w.end)
  }

  /**
   What becomes of a request line in the code as written, whatever follows its
   CRLF.  It throws exactly when the path overruns, with the path set to more than
   the line.  Otherwise it returns what the bounded searches give, but that an
   overrunning method also resets the method type.
   */
  lemma WrittenParseAgrees(r: Request, line: seq<Byte>, after: seq<Byte>)
    requires |line| <= |after| && after != [] && after[0] == '\r'
    ensures
      var written, bounded := ParsedAsWritten(r, line, after), ParsedRequestLine(r, line);
      && (written.Threw? <==> PathOverruns(line, after))
      && (written == Returned(bounded) <==>
           !PathOverruns(line, after) && (Overruns(line, after, 0) ==> r.methodType == UnsupportedMethod))
      && (written.Returned? ==> written.outcome.ok == bounded.ok && (bounded.ok ==> written.outcome == bounded))
      && (Overruns(line, after, 0) ==> written == Returned(Outcome(false, r.(methodType := UnsupportedMethod))))
    ensures
      var written := ParsedAsWritten(r, line, after);
      written.Threw? ==>
        var w := WordFrom(line, 0).value;
        var verb := line[w.start..w.end];
        && verb in {"GET", "POST"}
        && IsOverrunPath(r.(methodType := if verb == "GET" then GET else POST), line, after, w.end, written.request)
  {
    hide SkipFrom, FindByte, FindInWindow, Trim, VersionOf, PathAsWritten, ParsedPathAndVersion, IsOverrunPath;
    var start := SkipFrom(SPACE, line, 0);
    SearchWindowAgrees(line, after, start);
    NoneAtEnd(line);
    var found := FindInWindow(line, after, start);
    if start < |line| && found.Some? {
      assert (line + after)[|line|] == '\r' && found.value != |line|;
      if found.value > |line| {
        OverrunIsNoMethod(line, after, start, found.value);
        hide MethodOf;
      } else {
        assert (line + after)[start..found.value] == line[start..found.value];
        PathAsWrittenAgrees(r.(methodType := MethodOf(line[start..found.value])), line, after, found.value);
      }
    }
  }

  /** A method and a path, no version, and a header field behind: the parse throws. */
  lemma OverrunThrows()
    ensures
      var line, after := "GET      /", "\r\nA: b\r\n\r\n";
      ParsedAsWritten(Request(UnsupportedMethod, [], UnsupportedVersion, map[], false, []), line, after).Threw?
  {
    var line, after := "GET      /", "\r\nA: b\r\n\r\n";
    SkipFromAt(SPACE, line, 0, 0);
    FindByteAt(' ', line, 0, 3);
    assert line[0..3] == "GET";
    assert WordFrom(line, 0) == Some(Word(0, 3));
    assert line[9] == '/';
    SkipFromAt(SPACE, line, 3, 9);
    assert FindByte(' ', line, 9).None?;
    assert after[..9][4] == ' ';
    WrittenParseAgrees(Request(UnsupportedMethod, [], UnsupportedVersion, map[], false, []), line, after);
  }

  // -------------------------------------------------------------- header fields

  datatype Field = Field(key: seq<Byte>, value: seq<Byte>)

  /** The field a header line holds. */
  function FieldOf(line: seq<Byte>): Option<Field> {
    match FindByte(':', line, 0)
    case None => None
    case Some(colon) =>
      var key := Trim(BLANKS, line[..colon]);
      if key == [] then None else Some(Field(key, Trim(BLANKS, line[colon + 1..])))
  }

  /** A key without colon between blanks, a colon, and a value, which may be empty, between blanks. */
  ghost predicate IsHeaderLine(line: seq<Byte>, field: Field) {
    && field.key != [] && IsTrimmed(BLANKS, field.key) && ':' !in field.key && IsTrimmed(BLANKS, field.value)
    && exists left, right :: line == left + ":" + right && IsBlankedField(left, right, field)
  }

  ghost predicate IsBlankedField(left: seq<Byte>, right: seq<Byte>, field: Field) {
    && (exists b1, b2 :: IsPadded(BLANKS, left, b1, field.key, b2))
    && (exists b3, b4 :: IsPadded(BLANKS, right, b3, field.value, b4))
  }

  /** A header line is accepted exactly when it has the form, and read as what it then says. */
  lemma HeaderLineGrammar(line: seq<Byte>, field: Field)
    ensures FieldOf(line) == Some(field) <==> IsHeaderLine(line, field)
    ensures forall c :: c in BLANKS <==> c == ' ' || 9 <= c as int <= 13
  {
    hide Trim;
    if FieldOf(line) == Some(field) {
      var colon := FindByte(':', line, 0).value;
      var left, right := line[..colon], line[colon + 1..];
      TrimIsTheMiddle(BLANKS, left, field.key);
      TrimIsTheMiddle(BLANKS, right, field.value);
      assert line == left + ":" + right;
      var b1, b2 :| IsPadded(BLANKS, left, b1, field.key, b2);
      forall k | 0 <= k < |field.key| ensures field.key[k] != ':' { assert left[|b1| + k] == field.key[k]; }
      assert IsBlankedField(left, right, field);
    }
    if IsHeaderLine(line, field) {
      var left, right :| line == left + ":" + right && IsBlankedField(left, right, field);
      BlankedFieldIsRead(line, left, right, field);
    }
  }

  lemma BlankedFieldIsRead(line: seq<Byte>, left: seq<Byte>, right: seq<Byte>, field: Field)
    requires field.key != [] && IsTrimmed(BLANKS, field.key) && ':' !in field.key && IsTrimmed(BLANKS, field.value)
    requires line == left + ":" + right && IsBlankedField(left, right, field)
    ensures FieldOf(line) == Some(field)
  {
    hide Trim;
    var b1, b2 :| IsPadded(BLANKS, left, b1, field.key, b2);
    var b3, b4 :| IsPadded(BLANKS, right, b3, field.value, b4);
    forall k | 0 <= k < |left| ensures left[k] != ':' {
      if k < |b1| { assert left[k] == b1[k]; }
      else if k < |b1| + |field.key| { assert left[k] == field.key[k - |b1|]; }
      else { assert left[k] == b2[k - |b1| - |field.key|]; }
    }
    FindByteAt(':', line, 0, |left|);
    assert line[..|left|] == left && line[|left| + 1..] == right;
    TrimOfPadded(BLANKS, left, b1, field.key, b2);
    TrimOfPadded(BLANKS, right, b3, field.value, b4);
  }

  /** The headers after a line; a later field replaces an earlier one of the same key. */
  function ParsedHeaderLine(r: Request, line: seq<Byte>): Outcome {
    match FieldOf(line)
    case None => Outcome(false, r)
    case Some(field) => Outcome(true, r.(headers := r.headers[field.key := field.value]))
  }

  // ---------------------------------------------------------------- the class

  class HttpRequest {
    var methodType: Method
    var path: seq<Byte>
    var versionType: Version
    var headers: map<seq<Byte>, seq<Byte>>
    var needClose: bool
    var body: seq<Byte>

    function Value(): Request
      reads this
    {
      Request(methodType, path, versionType, headers, needClose, body)
    }

    constructor ()
      ensures Value() == Request(UnsupportedMethod, [], UnsupportedVersion, map[], false, [])
    {
      methodType, path, versionType := UnsupportedMethod, [], UnsupportedVersion;
      headers, needClose, body := map[], false, [];
    }

    /** `reset`, which leaves the close flag as it is. */
    method Reset()
      modifies this
      ensures Value() == Request(UnsupportedMethod, [], UnsupportedVersion, map[], old(needClose), [])
    {
      methodType, path, versionType := UnsupportedMethod, [], UnsupportedVersion;
      headers, body := map[], [];
    }

    method ParseRequestLine(line: seq<Byte>) returns (ok: bool)
      modifies this
      ensures Outcome(ok, Value()) == ParsedRequestLine(old(Value()), line)
    {
      hide Trim, SkipFrom, MethodOf, VersionOf, FindByte;
      var end := |line|;
      assert line[..end] == line;
      var methodStart := SkipLeading(SPACE, line, 0, end);
      if methodStart == end { return false; }
      var methodEnd := FindByte(' ', line, methodStart);
      if methodEnd == None { return false; }
      methodType := MethodOf(line[methodStart..methodEnd.value]);
      if methodType == UnsupportedMethod { return false; }

      var pathStart := SkipLeading(SPACE, line, methodEnd.value, end);
      if pathStart == end { return false; }
      var pathEnd := FindByte(' ', line, pathStart);
      if pathEnd == None { return false; }
      path := line[pathStart..pathEnd.value];

      assert line[pathEnd.value..end] == line[pathEnd.value..];
      var start, stop := TrimEnds(SPACE, line, pathEnd.value, end);
      if start == stop { return false; }
      versionType := VersionOf(line[start..stop]);
      ok := versionType != UnsupportedVersion;
    }

    method ParseHeaderLine(line: seq<Byte>) returns (ok: bool)
      modifies this
      ensures Outcome(ok, Value()) == ParsedHeaderLine(old(Value()), line)
    {
      var colon := FindByte(':', line, 0);
      if colon == None { return false; }
      var keyStart, keyEnd := TrimEnds(BLANKS, line, 0, colon.value);
      if keyStart == keyEnd { return false; }
      var valueStart, valueEnd := TrimEnds(BLANKS, line, colon.value + 1, |line|);
      assert line[0..colon.value] == line[..colon.value];
      assert line[colon.value + 1..|line|] == line[colon.value + 1..];
      headers := headers[line[keyStart..keyEnd] := line[valueStart..valueEnd]];
      ok := true;
    }
  }

  method SkipLeading(skip: set<Byte>, line: seq<Byte>, from: nat, end: nat) returns (start: nat)
    requires from <= end <= |line|
    ensures start == SkipFrom(skip, line[..end], from)
  {
    start := from;
    while start < end && line[start] in skip
      invariant from <= start <= end
      invariant SkipFrom(skip, line[..end], start) == SkipFrom(skip, line[..end], from)
    {
      start := start + 1;
    }
  }

  /** Where the part of `line[from..end]` between its leading and trailing blanks is. */
  method TrimEnds(skip: set<Byte>, line: seq<Byte>, from: nat, end: nat) returns (start: nat, stop: nat)
    requires from <= end <= |line|
    ensures from <= start <= stop <= end && line[start..stop] == Trim(skip, line[from..end])
  {
    hide Trim;
    start := SkipLeading(skip, line, from, end);
    stop := end;
    if start == end {
      TrimOfPadded(skip, line[from..end], line[from..end], [], []);
      return;
    }
    while line[stop - 1] in skip
      invariant start < stop <= end
      invariant forall k :: stop <= k < end ==> line[k] in skip
      decreases stop
    {
      stop := stop - 1;
    }
    assert line[from..end] == line[from..start] + line[start..stop] + line[stop..end];
    TrimOfPadded(skip, line[from..end], line[from..start], line[start..stop], line[stop..end]);
  }
}
