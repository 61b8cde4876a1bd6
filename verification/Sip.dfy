/** SIP messages: parsing, serializing, and exactly which messages survive both. */
module Sip {
  import opened Results
  import opened Text

  datatype Method =
    | Register | Invite | Ack | Bye | Message | Subscribe | Notify | Cancel | Info | Options

  /** A status is its numeric code. */
  datatype Start = Start(method_: Option<Method>, status: Option<nat>, uri: Option<string>, version: string)

  type Headers = seq<(string, string)>

  datatype SipMessage = SipMessage(startLine: string, start: Start, headers: Headers, body: string)

  // --- The start line ---

  function ParseMethod(s: string): Option<Method> {
    var u := Upper(s);
    if u == "REGISTER" then Some(Register)
    else if u == "INVITE" then Some(Invite)
    else if u == "ACK" then Some(Ack)
    else if u == "BYE" then Some(Bye)
    else if u == "MESSAGE" then Some(Message)
    else if u == "SUBSCRIBE" then Some(Subscribe)
    else if u == "NOTIFY" then Some(Notify)
    else if u == "CANCEL" then Some(Cancel)
    else if u == "INFO" then Some(Info)
    else if u == "OPTIONS" then Some(Options)
    else None
  }

  /** A status line has a code behind its version, a request line a target and a version behind its method. */
  function StartFrom(versioned: bool, parts: seq<string>): Option<Start> {
    if versioned then
      if |parts| < 2 then None
      else
        match ParseUnsigned(parts[1], 65535)
        case None => None
        case Some(code) => Some(Start(None, Some(code), None, parts[0]))
    else if |parts| < 3 then None
    else
      match ParseMethod(parts[0])
      case None => None
      case Some(m) => Some(Start(Some(m), None, Some(parts[1]), parts[2]))
  }

  function ReadStart(line: string): Option<Start> {
    StartFrom("SIP/2.0" <= line, SplitAtMost(line, 3))
  }

  // --- Headers ---

  /** One header line: a pair, nothing if blank, or the folded rest of the header before it. */
  function ReadHeader(read: Headers, line: string): Headers {
    var l := Trim(line);
    if l == "" then read
    else
      var pos := IndexOf(l, ':');
      if pos < |l| then read + [(Trim(l[..pos]), Trim(l[pos + 1..]))]
      else if read == [] then read
      else
        var last := read[|read| - 1];
        read[|read| - 1 := (last.0, last.1 + " " + l)]
  }

  function ReadHeaders(read: Headers, lines: seq<string>): Headers
    decreases |lines|
  {
    if lines == [] then read else ReadHeaders(ReadHeader(read, lines[0]), lines[1..])
  }

  /** Where the header section ends: the first blank line, or the end of the text. */
  function HeaderEnd(s: string): (n: nat)
    ensures n <= |s|
  {
    if s == "" || "\r\n\r\n" <= s then 0 else 1 + HeaderEnd(s[1..])
  }

  function Body(s: string, end: nat): string {
    if end + 4 <= |s| then s[end + 4..] else ""
  }

  function Parse(data: string): Option<SipMessage> {
    var end := HeaderEnd(data);
    var lines := Lines(data[..end]);
    if lines == [] then None
    else
      match ReadStart(lines[0])
      case None => None
      case Some(start) => Some(SipMessage(lines[0], start, ReadHeaders([], lines[1..]), Body(data, end)))
  }

  method ParseMessage(data: string) returns (m: Option<SipMessage>)
    ensures m == Parse(data)
  {
    hide IndexOf, Lines, HeaderEnd, ReadStart, Trim;
    var end := HeaderEnd(data);
    var lines := Lines(data[..end]);
    if lines == [] {
      return None;
    }
    var start := ReadStart(lines[0]);
    if start.None? {
      return None;
    }
    var headers: Headers := [];
    var i := 1;
    while i < |lines|
      invariant 1 <= i <= |lines|
      invariant ReadHeaders(headers, lines[i..]) == ReadHeaders([], lines[1..])
    {
      assert lines[i..][1..] == lines[i + 1..];
      ghost var before := headers;
      var line := Trim(lines[i]);
      if line != "" {
        var pos := IndexOf(line, ':');
        if pos < |line| {
          headers := headers + [(Trim(line[..pos]), Trim(line[pos + 1..]))];
        } else if headers != [] {
          var last := headers[|headers| - 1];
          headers := headers[|headers| - 1 := (last.0, last.1 + " " + line)];
        }
      }
      assert headers == ReadHeader(before, lines[i]);
      i := i + 1;
    }
    m := Some(SipMessage(lines[0], start.value, headers, Body(data, end)));
  }

  // --- Serializing ---

  function HeaderLine(h: (string, string)): string {
    h.0 + ": " + h.1
  }

  function HeadersText(headers: Headers): string {
    if headers == [] then "" else HeaderLine(headers[0]) + "\r\n" + HeadersText(headers[1..])
  }

  function Serialize(m: SipMessage): string {
    m.startLine + "\r\n" + HeadersText(m.headers) + "\r\n" + m.body
  }

  lemma {:induction false} HeadersTextGrows(headers: Headers, i: nat)
    requires i < |headers|
    ensures HeadersText(headers[..i + 1]) == HeadersText(headers[..i]) + HeaderLine(headers[i]) + "\r\n"
  {
    assert headers[..i + 1][1..] == headers[1..][..i];
    if i > 0 {
      assert headers[..i][1..] == headers[1..][..i - 1];
      HeadersTextGrows(headers[1..], i - 1);
    }
  }

  method SerializeMessage(m: SipMessage) returns (text: string)
    ensures text == Serialize(m)
  {
    text := m.startLine + "\r\n";
    var i := 0;
    while i < |m.headers|
      invariant 0 <= i <= |m.headers|
      invariant text == m.startLine + "\r\n" + HeadersText(m.headers[..i])
    {
      HeadersTextGrows(m.headers, i);
      text := text + (m.headers[i].0 + ": " + m.headers[i].1 + "\r\n");
      i := i + 1;
    }
    assert m.headers[..|m.headers|] == m.headers;
    text := text + "\r\n" + m.body;
  }

  // --- The header section of a serialized message ---

  predicate HeadersNoLf(headers: Headers) {
    forall i :: 0 <= i < |headers| ==> NoLf(headers[i].0) && NoLf(headers[i].1)
  }

  function HeaderLines(headers: Headers): seq<string> {
    if headers == [] then [] else [HeaderLine(headers[0])] + HeaderLines(headers[1..])
  }

  /** A first line and the header lines, without the blank line that ends them. */
  function Section(line: string, headers: Headers): string
    decreases |headers|
  {
    if headers == [] then line else line + "\r\n" + Section(HeaderLine(headers[0]), headers[1..])
  }

  lemma {:induction false} SectionText(line: string, headers: Headers)
    ensures line + "\r\n" + HeadersText(headers) == Section(line, headers) + "\r\n"
    decreases |headers|
  {
    if headers != [] {
      SectionText(HeaderLine(headers[0]), headers[1..]);
    }
  }

  lemma {:induction false} EndOfLastLine(line: string, rest: string)
    requires NoLf(line)
    ensures HeaderEnd(line + "\r\n\r\n" + rest) == |line|
  {
    var s := line + "\r\n\r\n" + rest;
    if line == "" {
      assert s[..4] == "\r\n\r\n";
    } else {
      assert s[1..] == line[1..] + "\r\n\r\n" + rest;
      assert s[1] != '\n' by {
        assert |line| > 1 ==> s[1] == line[1] && line[1] in line;
      }
      EndOfLastLine(line[1..], rest);
    }
  }

  lemma {:induction false} EndBehindLine(line: string, rest: string)
    requires NoLf(line) && |rest| >= 2 && rest[1] != '\n'
    ensures HeaderEnd(line + "\r\n" + rest) == |line| + 2 + HeaderEnd(rest)
  {
    var s := line + "\r\n" + rest;
    if line == "" {
      assert s[3] == rest[1];
      assert s[1..][0] == '\n';
      assert s[1..][1..] == rest;
    } else {
      assert s[1..] == line[1..] + "\r\n" + rest;
      assert s[1] != '\n' by {
        assert |line| > 1 ==> s[1] == line[1] && line[1] in line;
      }
      EndBehindLine(line[1..], rest);
    }
  }

  /** The blank line is found behind the last header, whatever the body holds. */
  lemma {:induction false} SectionEnds(line: string, headers: Headers, body: string)
    requires NoLf(line) && HeadersNoLf(headers)
    ensures HeaderEnd(Section(line, headers) + "\r\n\r\n" + body) == |Section(line, headers)|
    decreases |headers|
  {
    if headers == [] {
      EndOfLastLine(line, body);
    } else {
      var next := HeaderLine(headers[0]);
      var rest := Section(next, headers[1..]) + "\r\n\r\n" + body;
      assert NoLf(next) by { assert NoLf(headers[0].0) && NoLf(headers[0].1); }
      SectionStarts(next, headers[1..]);
      assert rest[1] == next[1] && next[1] in next;
      SectionEnds(next, headers[1..], body);
      EndBehindLine(line, rest);
      assert Section(line, headers) + "\r\n\r\n" + body == line + "\r\n" + rest;
    }
  }

  lemma SectionStarts(line: string, headers: Headers)
    ensures line <= Section(line, headers)
  {
  }

  lemma {:induction false} SectionLines(line: string, headers: Headers)
    requires NoLf(line) && HeadersNoLf(headers) && (line != "" || headers != [])
    ensures Lines(Section(line, headers)) == [line] + HeaderLines(headers)
    decreases |headers|
  {
    if headers == [] {
      IndexOfAbsent(line, '\n');
    } else {
      var next := HeaderLine(headers[0]);
      assert NoLf(next) by { assert NoLf(headers[0].0) && NoLf(headers[0].1); }
      SectionLines(next, headers[1..]);
      LinesFront(line, Section(next, headers[1..]));
    }
  }

  // --- Which messages survive ---

  predicate IsName(name: string) {
    NoLf(name) && Trimmed(name) && ':' !in name
  }

  predicate IsHeader(h: (string, string)) {
    IsName(h.0) && NoLf(h.1) && Trimmed(h.1)
  }

  /** One start line that means what the fields say; trimmed headers without line feeds, names without a colon. */
  predicate WellFormed(m: SipMessage) {
    && NoLf(m.startLine) && ReadStart(m.startLine) == Some(m.start)
    && forall i :: 0 <= i < |m.headers| ==> IsHeader(m.headers[i])
  }

  lemma EmptyLineIsNoStart()
    ensures ReadStart("") == None
  {
  }

  predicate ValuesTrimmed(headers: Headers) {
    forall i :: 0 <= i < |headers| ==> Trimmed(headers[i].1)
  }

  predicate Plausible(read: Headers) {
    forall i :: 0 <= i < |read| ==> IsName(read[i].0) && NoLf(read[i].1)
  }

  /** What a serialized value is read as. */
  function ValueBack(v: string): string {
    Trim(TrimEnd(" " + v))
  }

  function HeadersBack(headers: Headers): Headers {
    if headers == [] then [] else [(headers[0].0, ValueBack(headers[0].1))] + HeadersBack(headers[1..])
  }

  /** A serialized header line is cut at the name's colon. */
  lemma HeaderLineIsRead(read: Headers, h: (string, string))
    requires IsName(h.0)
    ensures ReadHeader(read, HeaderLine(h)) == read + [(h.0, ValueBack(h.1))]
  {
    var (name, v) := h;
    var tail := TrimEnd(" " + v);
    var l := name + ":" + tail;
    assert Trim(HeaderLine(h)) == l by { HeaderLineTrims(name, v); }
    assert l == name + [':'] + tail;
    IndexAfterPrefix(name, ':', tail);
    assert l[..|name|] == name && l[|name| + 1..] == tail;
    TrimTrimmed(name);
  }

  lemma {:induction false} HeadersBackIsTrimmed(headers: Headers)
    ensures ValuesTrimmed(HeadersBack(headers))
    ensures ValuesTrimmed(headers) ==> HeadersBack(headers) == headers
  {
    if headers != [] {
      TrimIsTrimmed(TrimEnd(" " + headers[0].1));
      HeadersBackIsTrimmed(headers[1..]);
      if ValuesTrimmed(headers) {
        TrimmedValueSurvives(headers[0].1);
      }
    }
  }

  lemma TrimmedValueSurvives(v: string)
    requires Trimmed(v)
    ensures Trim(TrimEnd(" " + v)) == v
  {
    if v == "" {
      assert (" " + v)[..0] == "";
    } else {
      TrimLeadingSpace(v);
    }
  }

  lemma HeaderLineTrims(name: string, v: string)
    requires Trimmed(name)
    ensures Trim(HeaderLine((name, v))) == name + ":" + TrimEnd(" " + v)
  {
    var line := HeaderLine((name, v));
    assert line == (name + ":") + (" " + v);
    assert !IsSpace(line[0]);
    TrimEndBehind(name + ":", " " + v);
  }

  lemma FirstHeaderIsRead(read: Headers, headers: Headers)
    requires headers != []
    ensures ReadHeaders(read, HeaderLines(headers))
      == ReadHeaders(ReadHeader(read, HeaderLine(headers[0])), HeaderLines(headers[1..]))
  {
    hide ReadHeader, HeaderLine;
    assert HeaderLines(headers)[1..] == HeaderLines(headers[1..]);
  }

  lemma ReadsOneMore(read: Headers, headers: Headers)
    requires Plausible(headers) && headers != []
    ensures Plausible(headers[1..])
    ensures ReadHeaders(read, HeaderLines(headers))
      == ReadHeaders(read + [(headers[0].0, ValueBack(headers[0].1))], HeaderLines(headers[1..]))
  {
    assert IsName(headers[0].0);
    HeaderLineIsRead(read, headers[0]);
    FirstHeaderIsRead(read, headers);
    hide ReadHeader, ReadHeaders, HeaderLine, HeaderLines, ValueBack, IsName;
  }

  lemma {:induction false} HeaderLinesAreRead(read: Headers, headers: Headers)
    requires Plausible(headers)
    ensures ReadHeaders(read, HeaderLines(headers)) == read + HeadersBack(headers)
    decreases |headers|
  {
    hide Plausible, ReadHeaders, HeaderLines, ValueBack, HeadersBack;
    if headers == [] {
      NothingIsRead(read);
    } else {
      ReadsOneMore(read, headers);
      HeadersBackFront(headers);
      var next, rest := [(headers[0].0, ValueBack(headers[0].1))], HeadersBack(headers[1..]);
      HeaderLinesAreRead(read + next, headers[1..]);
      assert read + next + rest == read + (next + rest);
    }
  }

  lemma NothingIsRead(read: Headers)
    ensures ReadHeaders(read, HeaderLines([])) == read + HeadersBack([])
  {
    assert read + [] == read;
  }

  lemma HeadersBackFront(headers: Headers)
    requires headers != []
    ensures HeadersBack(headers) == [(headers[0].0, ValueBack(headers[0].1))] + HeadersBack(headers[1..])
  {
  }

  // What any parsed message looks like.

  lemma CutIsPlausible(l: string, pos: nat)
    requires NoLf(l) && pos == IndexOf(l, ':') && pos < |l|
    ensures IsName(Trim(l[..pos])) && NoLf(Trim(l[pos + 1..]))
  {
    TrimIsTrimmed(l[..pos]);
    TrimKeepsOut(l[..pos], '\n');
    TrimKeepsOut(l[..pos], ':');
    TrimKeepsOut(l[pos + 1..], '\n');
  }

  lemma ReadHeaderIsPlausible(read: Headers, line: string)
    requires Plausible(read) && NoLf(line)
    ensures Plausible(ReadHeader(read, line))
  {
    var l := Trim(line);
    TrimKeepsOut(line, '\n');
    var pos := IndexOf(l, ':');
    if pos < |l| {
      CutIsPlausible(l, pos);
    }
    hide Trim, IndexOf, Trimmed, IsName;
  }

  lemma {:induction false} ReadHeadersArePlausible(read: Headers, lines: seq<string>)
    requires Plausible(read) && forall i :: 0 <= i < |lines| ==> NoLf(lines[i])
    ensures Plausible(ReadHeaders(read, lines))
    decreases |lines|
  {
    if lines != [] {
      assert NoLf(lines[0]);
      ReadHeaderIsPlausible(read, lines[0]);
      hide ReadHeader, Plausible, NoLf;
      ReadHeadersArePlausible(ReadHeader(read, lines[0]), lines[1..]);
    }
  }

  lemma ParsedIsPlausible(data: string)
    requires Parse(data).Some?
    ensures NoLf(Parse(data).value.startLine) && Plausible(Parse(data).value.headers)
  {
    var lines := Lines(data[..HeaderEnd(data)]);
    LinesHaveNoLf(data[..HeaderEnd(data)]);
    hide Lines, NoLf, Plausible, ReadHeader;
    assert Plausible([]) by { NothingIsPlausible(); }
    ReadHeadersArePlausible([], lines[1..]);
  }

  lemma NothingIsPlausible()
    ensures Plausible([])
  {
  }

  /** What a serialized message with plausible parts parses to: itself, but for spaces around the values. */
  lemma SerializedIsRead(m: SipMessage)
    requires NoLf(m.startLine) && Plausible(m.headers)
    requires m.startLine != "" || m.headers != []
    ensures
      Parse(Serialize(m)) ==
        match ReadStart(m.startLine)
        case None => None
        case Some(start) => Some(SipMessage(m.startLine, start, HeadersBack(m.headers), m.body))
  {
    var section := Section(m.startLine, m.headers);
    SectionText(m.startLine, m.headers);
    assert Serialize(m) == section + "\r\n\r\n" + m.body;
    SectionEnds(m.startLine, m.headers, m.body);
    SectionLines(m.startLine, m.headers);
    HeaderLinesAreRead([], m.headers);
    hide Serialize, Section, HeaderLines, HeadersBack, ReadHeaders, ReadStart, Lines, HeaderEnd, Plausible, NoLf, Parse;
    assert [] + HeadersBack(m.headers) == HeadersBack(m.headers);
    AssembledIsRead(section, m.startLine, HeaderLines(m.headers), m.body);
  }

  lemma AssembledIsRead(section: string, line: string, lines: seq<string>, body: string)
    requires HeaderEnd(section + "\r\n\r\n" + body) == |section|
    requires Lines(section) == [line] + lines
    ensures
      Parse(section + "\r\n\r\n" + body) ==
        match ReadStart(line)
        case None => None
        case Some(start) => Some(SipMessage(line, start, ReadHeaders([], lines), body))
  {
    hide Lines, HeaderEnd, ReadStart, ReadHeaders;
    var data := section + "\r\n\r\n" + body;
    assert data[..|section|] == section && data[|section| + 4..] == body;
    assert ([line] + lines)[1..] == lines;
  }

  /** Serializing and parsing gives the message back exactly when it is well-formed; the body may be anything. */
  lemma SipRoundTrip(m: SipMessage)
    ensures Parse(Serialize(m)) == Some(m) <==> WellFormed(m)
  {
    EmptyLineIsNoStart();
    HeadersBackIsTrimmed(m.headers);
    if WellFormed(m) {
      assert forall i :: 0 <= i < |m.headers| ==> IsHeader(m.headers[i]);
      SerializedIsRead(m);
    } else if Parse(Serialize(m)) == Some(m) {
      ParsedIsPlausible(Serialize(m));
      StartIsRead(Serialize(m));
      hide Parse, Serialize, ReadStart, HeadersBack;
      SerializedIsRead(m);
      assert false;
    }
  }

  lemma StartIsRead(data: string)
    requires Parse(data).Some?
    ensures ReadStart(Parse(data).value.startLine) == Some(Parse(data).value.start)
  {
    hide ReadStart, Lines, HeaderEnd, ReadHeaders;
  }

  /** A value folded onto a second line is joined again by one space, exactly if that line holds no colon. */
  lemma FoldedValueIsJoined(read: Headers, name: string, v1: string, v2: string)
    requires IsName(name) && Trimmed(v1) && Trimmed(v2) && v2 != ""
    ensures
      ReadHeaders(read, [HeaderLine((name, v1)), " " + v2]) == read + [(name, v1 + " " + v2)] <==> ':' !in v2
  {
    HeaderLineIsRead(read, (name, v1));
    TrimmedValueSurvives(v1);
    TrimLeadingSpace(v2);
    var first := read + [(name, v1)];
    var lines := [HeaderLine((name, v1)), " " + v2];
    assert lines[1..] == [" " + v2] && lines[1..][1..] == [];
    var out := ReadHeader(first, " " + v2);
    assert ReadHeaders(read, lines) == out by {
      hide ReadHeader, HeaderLine, ValueBack;
      assert ReadHeaders(first, lines[1..]) == ReadHeaders(ReadHeader(first, " " + v2), []);
    }
    hide ReadHeaders, HeaderLine, Trim;
    if ':' !in v2 {
      IndexOfAbsent(v2, ':');
      assert out == read + [(name, v1 + " " + v2)];
    } else {
      assert IndexOf(v2, ':') < |v2| by {
        assert v2[..|v2|] == v2;
      }
      assert |out| == |read| + 2;
    }
  }

  // --- What start lines mean ---

  /** The first line of a message is what stands in front of its first line feed. */
  lemma FirstLineIs(line: string, tail: string)
    requires NoLf(line) && line != ""
    ensures
      var data := line + "\r\n" + tail;
      var lines := Lines(data[..HeaderEnd(data)]);
      lines != [] && lines[0] == line
  {
    var data := line + "\r\n" + tail;
    var end := HeaderEnd(data);
    EndIsBehindLine(line, tail);
    if end == |line| {
      assert data[..end] == line;
      LinesAreCut(line, "");
    } else {
      var more := data[|line| + 2..end];
      assert data[..end] == line + "\r\n" + more;
      LinesFront(line, more);
    }
  }

  lemma {:induction false} EndIsBehindLine(line: string, tail: string)
    requires NoLf(line)
    ensures var end := HeaderEnd(line + "\r\n" + tail); end == |line| || end >= |line| + 2
  {
    var data := line + "\r\n" + tail;
    assert forall i :: 0 <= i < |line| ==> data[i] == line[i] && line[i] in line;
    if line == "" {
      assert data[0] == '\r' && data[1] == '\n';
      assert data[1..][0] == '\n';
    } else {
      assert !("\r\n\r\n" <= data) by {
        assert |line| > 1 ==> data[1] == line[1];
        assert |line| == 1 ==> data[1] == '\r';
      }
      assert data[1..] == line[1..] + "\r\n" + tail;
      EndIsBehindLine(line[1..], tail);
    }
  }

  /** The same letters, whatever their case. */
  predicate Spells(s: string, name: string) {
    && |s| == |name|
    && forall i :: 0 <= i < |s| ==> s[i] == name[i] || s[i] as int == name[i] as int + 32
  }

  function NameOf(m: Method): string {
    match m
    case Register => "REGISTER"
    case Invite => "INVITE"
    case Ack => "ACK"
    case Bye => "BYE"
    case Message => "MESSAGE"
    case Subscribe => "SUBSCRIBE"
    case Notify => "NOTIFY"
    case Cancel => "CANCEL"
    case Info => "INFO"
    case Options => "OPTIONS"
  }

  lemma NamesAreUpper(m: Method, i: nat)
    requires i < |NameOf(m)|
    ensures 'A' <= NameOf(m)[i] <= 'Z' && 3 <= |NameOf(m)|
  {
  }

  lemma SpelledIsUpper(s: string, m: Method)
    ensures Spells(s, NameOf(m)) <==> Upper(s) == NameOf(m)
  {
    var (n, u) := (NameOf(m), Upper(s));
    forall i | 0 <= i < |n|
      ensures 'A' <= n[i] <= 'Z'
    {
      NamesAreUpper(m, i);
    }
    hide NameOf;
    if Spells(s, n) {
      forall i | 0 <= i < |s|
        ensures u[i] == n[i]
      {
        CasesAreAscii(s, i);
      }
      assert u == n;
    }
    if u == n {
      forall i | 0 <= i < |s|
        ensures s[i] == n[i] || s[i] as int == n[i] as int + 32
      {
        CasesAreAscii(s, i);
      }
    }
  }

  lemma MethodIsSpelled(s: string, m: Method)
    ensures ParseMethod(s) == Some(m) <==> Spells(s, NameOf(m))
  {
    SpelledIsUpper(s, m);
    hide Spells, Upper;
  }

  /** A message with this first line, whatever follows, is read with this start, or refused. */
  ghost predicate Means(line: string, start: Option<Start>) {
    forall tail: string ::
      var m := Parse(line + "\r\n" + tail);
      match start
      case None => m == None
      case Some(st) => m.Some? && m.value.startLine == line && m.value.start == st
  }

  lemma LineDecides(line: string)
    requires NoLf(line) && line != ""
    ensures Means(line, ReadStart(line))
  {
    forall tail: string
      ensures
        var m := Parse(line + "\r\n" + tail);
        match ReadStart(line)
        case None => m == None
        case Some(st) => m.Some? && m.value.startLine == line && m.value.start == st
    {
      FirstLineIs(line, tail);
      hide ReadStart, Lines, HeaderEnd, ReadHeaders;
    }
  }

  lemma PartsOfLine(a: string, b: string, c: string)
    requires ' ' !in a && ' ' !in b
    ensures SplitAtMost(a + " " + b + " " + c, 3) == [a, b, c]
    ensures ' ' !in c ==> SplitAtMost(a + " " + c, 3) == [a, c] && SplitAtMost(c, 3) == [c]
  {
    hide SplitAtMost;
    assert a + " " + b + " " + c == a + " " + (b + " " + c);
    SplitAtMostPrefix(a, b + " " + c, 3);
    SplitAtMostPrefix(b, c, 2);
    SplitAtMostWhole(c, 1);
    SplitAtMostPrefix(a, c, 3);
    if ' ' !in c {
      SplitAtMostWhole(c, 2);
      SplitAtMostWhole(c, 3);
    }
  }

  lemma NameIsNoVersion(name: string, m: Method, rest: string)
    requires Spells(name, NameOf(m))
    ensures name != "" && NoLf(name) && ' ' !in name && !("SIP/2.0" <= name + rest)
  {
    forall i | 0 <= i < |name|
      ensures name[i] != ' ' && name[i] != '\n' && name[i] != '/' && name[i] != '.'
    {
      NamesAreUpper(m, i);
    }
    NamesAreUpper(m, 0);
    ShortNames(m);
    hide NameOf;
    var line := name + rest;
    assert |name| >= 3 && (|name| == 3 ==> name[0] != 'S');
    assert forall i :: 0 <= i < |name| ==> line[i] == name[i];
    VersionOpens(line);
  }

  lemma VersionOpens(line: string)
    ensures "SIP/2.0" <= line ==> |line| >= 7 && line[0] == 'S' && line[3] == '/'
  {
  }

  lemma ShortNames(m: Method)
    ensures |NameOf(m)| == 3 ==> NameOf(m)[0] == 'A' || NameOf(m)[0] == 'B'
  {
  }

  lemma PartsDecide(line: string, parts: seq<string>)
    requires NoLf(line) && line != "" && parts == SplitAtMost(line, 3)
    ensures Means(line, StartFrom("SIP/2.0" <= line, parts))
  {
    hide Means, SplitAtMost, StartFrom;
    LineDecides(line);
  }

  lemma JoinedHasNoLf(a: string, b: string, c: string)
    requires NoLf(a) && NoLf(b) && NoLf(c)
    ensures NoLf(a + " " + b + " " + c) && NoLf(a + " " + b)
  {
  }

  /** A request line of a method's name in any case, a target and a version is read as exactly these. */
  lemma RequestLineIsRead(name: string, m: Method, uri: string, version: string)
    requires Spells(name, NameOf(m)) && ' ' !in uri && NoLf(uri) && NoLf(version)
    ensures Means(name + " " + uri + " " + version, Some(Start(Some(m), None, Some(uri), version)))
  {
    NameIsNoVersion(name, m, " " + uri + " " + version);
    MethodIsSpelled(name, m);
    RequestDecides(name, uri, version);
    hide Means, SplitAtMost, Spells, NameOf, ParseMethod, NoLf;
    assert name + " " + uri + " " + version == name + (" " + uri + " " + version);
  }

  lemma RequestDecides(name: string, uri: string, version: string)
    requires ' ' !in name && NoLf(name) && ' ' !in uri && NoLf(uri) && NoLf(version)
    ensures
      var line := name + " " + uri + " " + version;
      Means(line, StartFrom("SIP/2.0" <= line, [name, uri, version]))
  {
    var line := name + " " + uri + " " + version;
    JoinedHasNoLf(name, uri, version);
    PartsOfLine(name, uri, version);
    assert line != "";
    hide Means, SplitAtMost, StartFrom, NoLf;
    PartsDecide(line, [name, uri, version]);
  }

  lemma PairDecides(first: string, second: string)
    requires ' ' !in first && NoLf(first) && ' ' !in second && NoLf(second)
    ensures
      var line := first + " " + second;
      Means(line, StartFrom("SIP/2.0" <= line, [first, second]))
    ensures first != "" ==> Means(first, StartFrom("SIP/2.0" <= first, [first]))
  {
    var line := first + " " + second;
    JoinedHasNoLf(first, second, "");
    PartsOfLine(first, "", second);
    PartsOfLine("", "", first);
    assert line != "";
    hide Means, SplitAtMost, StartFrom, NoLf;
    PartsDecide(line, [first, second]);
    if first != "" {
      PartsDecide(first, [first]);
    }
  }

  /** With any other name it is refused, unless the name makes it a status line. */
  lemma UnknownMethodIsRefused(name: string, uri: string, version: string)
    requires forall m: Method :: !Spells(name, NameOf(m))
    requires !("SIP/2.0" <= name) && ' ' !in name && NoLf(name) && ' ' !in uri && NoLf(uri) && NoLf(version)
    ensures Means(name + " " + uri + " " + version, None)
  {
    NoMethodIsSpelled(name);
    VersionIsInName(name, uri + " " + version);
    RequestDecides(name, uri, version);
    hide Means, ParseMethod, NoLf, Spells;
    assert name + " " + uri + " " + version == name + " " + (uri + " " + version);
  }

  /** So is a line of one word or two. */
  lemma ShortLineIsRefused(first: string, second: string)
    requires !("SIP/2.0" <= first) && ' ' !in first && NoLf(first) && ' ' !in second && NoLf(second)
    ensures Means(first + " " + second, None) && (first != "" ==> Means(first, None))
  {
    VersionIsInName(first, second);
    hide Means, NoLf;
    PairDecides(first, second);
  }

  lemma NoMethodIsSpelled(name: string)
    requires forall m: Method :: !Spells(name, NameOf(m))
    ensures ParseMethod(name) == None
  {
    if ParseMethod(name).Some? {
      var m := ParseMethod(name).value;
      hide ParseMethod, Spells, NameOf;
      MethodIsSpelled(name, m);
    }
  }

  lemma VersionIsInName(name: string, rest: string)
    requires !("SIP/2.0" <= name)
    ensures !("SIP/2.0" <= name + " " + rest)
  {
    var s := name + " " + rest;
    assert forall i :: 0 <= i < |name| ==> s[i] == name[i];
    assert s[|name|] == ' ';
  }

  /**
   * A status line of any code up to 65535 is read as that code, with a reason or none; without a code, or with what is
   * no such number in its place, it is refused.
   */
  lemma StatusLines(code: nat, reason: string, text: string)
    requires NoLf(reason) && NoLf(text) && ' ' !in text
    ensures code <= 65535 ==>
      && Means("SIP/2.0 " + Decimal(code) + " " + reason, Some(Start(None, Some(code), None, "SIP/2.0")))
      && Means("SIP/2.0 " + Decimal(code), Some(Start(None, Some(code), None, "SIP/2.0")))
    ensures code > 65535 ==> Means("SIP/2.0 " + Decimal(code) + " " + reason, None)
    ensures ParseUnsigned(text, 65535) == None ==>
      Means("SIP/2.0 " + text + " " + reason, None) && Means("SIP/2.0 " + text, None)
    ensures Means("SIP/2.0", None)
  {
    DecimalIsPlain(code);
    UnsignedIsRead(code, 65535, "");
    hide Means, Decimal, ParseUnsigned;
    CodeIsRead(Decimal(code), reason);
    CodeIsRead(text, reason);
    PairDecides("SIP/2.0", "");
  }

  lemma DecimalIsPlain(n: nat)
    ensures ' ' !in Decimal(n) && NoLf(Decimal(n))
  {
    assert AllDigits(Decimal(n));
  }

  lemma CodeIsRead(text: string, reason: string)
    requires NoLf(reason) && NoLf(text) && ' ' !in text
    ensures
      var start := match ParseUnsigned(text, 65535)
                   case None => None
                   case Some(code) => Some(Start(None, Some(code), None, "SIP/2.0"));
      Means("SIP/2.0 " + text + " " + reason, start) && Means("SIP/2.0 " + text, start)
  {
    var (long, short) := ("SIP/2.0 " + text + " " + reason, "SIP/2.0 " + text);
    VersionInFront(text, reason);
    RequestDecides("SIP/2.0", text, reason);
    PairDecides("SIP/2.0", text);
    hide Means, ParseUnsigned, NoLf;
  }

  lemma VersionInFront(text: string, reason: string)
    ensures "SIP/2.0 " + text + " " + reason == "SIP/2.0" + " " + text + " " + reason
    ensures "SIP/2.0 " + text == "SIP/2.0" + " " + text
    ensures "SIP/2.0" <= "SIP/2.0" + " " + text + " " + reason && "SIP/2.0" <= "SIP/2.0" + " " + text
  {
    assert "SIP/2.0 " == "SIP/2.0" + " ";
  }
}
