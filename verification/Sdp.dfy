/** Session descriptions: the line-by-line parser, the serializer, and what survives both. */
module Sdp {
  import opened Results
  import opened Text

  type Attribute = (string, string)

  datatype Media = Media(
    mediaType: string, port: nat, proto: string, payloadTypes: seq<nat>, attributes: seq<Attribute>)

  datatype Session = Session(
    origin: string, name: string, connection: Option<string>, bandwidth: Option<string>, ssrc: Option<nat>,
    media: seq<Media>, start: Option<nat>, end: Option<nat>)

  const BLANK := Session("", "", None, None, None, [], None, None)

  // --- Parsing ---

  function WordLength(s: string): (n: nat)
    ensures n <= |s| && (n == 0 <==> s == "" || IsSpace(s[0]))
  {
    if s == "" || IsSpace(s[0]) then 0 else 1 + WordLength(s[1..])
  }

  /** `split_whitespace` */
  function Words(s: string): seq<string>
    decreases |s|
  {
    TrimStartTrims(s);
    var t := TrimStart(s);
    if t == "" then [] else [t[..WordLength(t)]] + Words(t[WordLength(t)..])
  }

  /** The words that are octets; others are skipped. */
  function PayloadTypes(words: seq<string>): seq<nat> {
    if words == [] then []
    else
      match ParseUnsigned(words[0], 0xFF)
      case None => PayloadTypes(words[1..])
      case Some(n) => [n] + PayloadTypes(words[1..])
  }

  /** The port before any slash; anything unreadable is 0. */
  function Port(s: string): nat {
    match ParseUnsigned(s[..IndexOf(s, '/')], 0xFFFF)
    case None => 0
    case Some(n) => n
  }

  function ReadMedia(st: Session, value: string): Session {
    var parts := SplitAtMost(value, 4);
    if |parts| < 3 then st
    else
      var types := if |parts| > 3 then PayloadTypes(Words(parts[3])) else [];
      st.(media := st.media + [Media(parts[0], Port(parts[1]), parts[2], types, [])])
  }

  function AttributeOf(value: string): Attribute {
    var i := IndexOf(value, ':');
    if i < |value| then (value[..i], value[i + 1..]) else (value, "")
  }

  function WithAttribute(m: Media, a: Attribute): Media {
    m.(attributes := m.attributes + [a])
  }

  /** An attribute belongs to the last media read; in front of all media it is dropped. */
  function AddAttribute(st: Session, a: Attribute): Session {
    if st.media == [] then st
    else
      var k := |st.media| - 1;
      st.(media := st.media[k := WithAttribute(st.media[k], a)])
  }

  function ReadAttribute(st: Session, value: string): Session {
    AddAttribute(st, AttributeOf(value))
  }

  const MAX_U64 := 0xFFFF_FFFF_FFFF_FFFF

  function ReadTiming(st: Session, value: string): Session {
    var words := Words(value);
    if |words| < 2 then st
    else
      match (ParseUnsigned(words[0], MAX_U64), ParseUnsigned(words[1], MAX_U64))
      case (Some(s), Some(e)) => if s != 0 || e != 0 then st.(start := Some(s), end := Some(e)) else st
      case _ => st
  }

  function ReadField(st: Session, kind: char, value: string): Session {
    if kind == 'o' then st.(origin := value)
    else if kind == 's' then st.(name := value)
    else if kind == 'c' then st.(connection := Some(value))
    else if kind == 'b' then st.(bandwidth := Some(value))
    else if kind == 'y' then
      (match ParseUnsigned(Trim(value), 0xFFFF_FFFF)
       case None => st
       case Some(n) => st.(ssrc := Some(n)))
    else if kind == 'm' then ReadMedia(st, value)
    else if kind == 'a' then ReadAttribute(st, value)
    else if kind == 't' then ReadTiming(st, value)
    else st
  }

  function ReadLine(st: Session, line: string): Session {
    var l := Trim(line);
    if |l| < 2 || l[1] != '=' then st else ReadField(st, l[0], l[2..])
  }

  function ReadLines(st: Session, lines: seq<string>): Session
    decreases |lines|
  {
    if lines == [] then st else ReadLines(ReadLine(st, lines[0]), lines[1..])
  }

  function Parse(data: string): Option<Session> {
    var s := ReadLines(BLANK, Lines(data));
    if s.origin == "" || s.name == "" then None else Some(s)
  }

  method ParseSession(data: string) returns (s: Option<Session>)
    ensures s == Parse(data)
  {
    hide ReadLine;
    var lines := Lines(data);
    var st := BLANK;
    var i := 0;
    assert lines[0..] == lines;
    while i < |lines|
      invariant 0 <= i <= |lines|
      invariant ReadLines(st, lines[i..]) == ReadLines(BLANK, lines)
    {
      assert lines[i..][1..] == lines[i + 1..];
      st := ReadLine(st, lines[i]);
      i := i + 1;
    }
    s := if st.origin == "" || st.name == "" then None else Some(st);
  }

  // --- Serializing ---

  function Field(kind: char, value: string): string {
    [kind] + "=" + value
  }

  function Numbers(ns: seq<nat>): string {
    if ns == [] then ""
    else if |ns| == 1 then Decimal(ns[0])
    else Decimal(ns[0]) + " " + Numbers(ns[1..])
  }

  function MediaField(m: Media): string {
    Field('m', m.mediaType + " " + (Decimal(m.port) + " " + (m.proto + " " + Numbers(m.payloadTypes))))
  }

  function AttributeField(a: Attribute): string {
    Field('a', if a.1 == "" then a.0 else a.0 + ":" + a.1)
  }

  function AttributeFields(attributes: seq<Attribute>): seq<string> {
    if attributes == [] then [] else [AttributeField(attributes[0])] + AttributeFields(attributes[1..])
  }

  function MediaFields(media: seq<Media>): seq<string> {
    if media == [] then []
    else [MediaField(media[0])] + AttributeFields(media[0].attributes) + MediaFields(media[1..])
  }

  function OptionalField(kind: char, value: Option<string>): seq<string> {
    match value
    case None => []
    case Some(v) => [Field(kind, v)]
  }

  function TimingField(s: Session): string {
    Field('t', if s.start.Some? && s.end.Some? then Decimal(s.start.value) + " " + Decimal(s.end.value) else "0 0")
  }

  function Fields(s: Session): seq<string> {
    ["v=0", Field('o', s.origin), Field('s', s.name)] + OptionalField('c', s.connection)
    + OptionalField('b', s.bandwidth) + [TimingField(s)] + MediaFields(s.media)
  }

  function Terminated(fields: seq<string>): string {
    if fields == [] then "" else fields[0] + "\r\n" + Terminated(fields[1..])
  }

  function Serialize(s: Session): string {
    Terminated(Fields(s))
  }

  lemma {:induction false} TerminatedAppend(a: seq<string>, b: seq<string>)
    ensures Terminated(a + b) == Terminated(a) + Terminated(b)
  {
    if a == [] {
      assert a + b == b;
    } else {
      assert (a + b)[1..] == a[1..] + b;
      TerminatedAppend(a[1..], b);
    }
  }

  lemma TerminatedOne(f: string)
    ensures Terminated([f]) == f + "\r\n"
  {
    assert [f][1..] == [];
  }

  /** The serializer's loops, pushing one line at a time. */
  method SerializeSession(s: Session) returns (text: string)
    ensures text == Serialize(s)
  {
    hide Field, Numbers, Terminated;
    ghost var written := ["v=0", Field('o', s.origin), Field('s', s.name)];
    HeadIsTerminated("v=0", Field('o', s.origin), Field('s', s.name));
    text := "v=0" + "\r\n" + (Field('o', s.origin) + "\r\n") + (Field('s', s.name) + "\r\n");
    PushedOptional(written, 'c', s.connection);
    if s.connection.Some? {
      text := text + (Field('c', s.connection.value) + "\r\n");
    }
    written := written + OptionalField('c', s.connection);
    PushedOptional(written, 'b', s.bandwidth);
    if s.bandwidth.Some? {
      text := text + (Field('b', s.bandwidth.value) + "\r\n");
    }
    written := written + OptionalField('b', s.bandwidth);
    Pushed(written, TimingField(s));
    text := text + (TimingField(s) + "\r\n");
    written := written + [TimingField(s)];
    var i := 0;
    assert written + MediaFields(s.media[0..]) == Fields(s) by { assert s.media[0..] == s.media; }
    while i < |s.media|
      invariant 0 <= i <= |s.media|
      invariant written + MediaFields(s.media[i..]) == Fields(s)
      invariant text == Terminated(written)
    {
      var m := s.media[i];
      Pushed(written, MediaField(m));
      text := text + (MediaField(m) + "\r\n");
      var attributes := AttributesText(m.attributes);
      TerminatedAppend(written + [MediaField(m)], AttributeFields(m.attributes));
      text := text + attributes;
      assert s.media[i..][1..] == s.media[i + 1..];
      NextMedia(written, s.media[i..]);
      written := written + [MediaField(m)] + AttributeFields(m.attributes);
      i := i + 1;
    }
    assert written + [] == written;
  }

  lemma NextMedia(written: seq<string>, media: seq<Media>)
    requires media != []
    ensures written + MediaFields(media)
      == written + [MediaField(media[0])] + AttributeFields(media[0].attributes) + MediaFields(media[1..])
  {
  }

  lemma HeadIsTerminated(a: string, b: string, c: string)
    ensures Terminated([a, b, c]) == a + "\r\n" + (b + "\r\n") + (c + "\r\n")
  {
    assert [a, b, c][1..] == [b, c] && [b, c][1..] == [c] && [c][1..] == [];
    assert Terminated([b, c]) == b + "\r\n" + Terminated([c]);
    assert Terminated([c]) == c + "\r\n";
  }

  lemma Pushed(written: seq<string>, f: string)
    ensures Terminated(written + [f]) == Terminated(written) + (f + "\r\n")
  {
    TerminatedAppend(written, [f]);
    TerminatedOne(f);
  }

  lemma PushedOptional(written: seq<string>, kind: char, value: Option<string>)
    ensures Terminated(written + OptionalField(kind, value))
      == if value.Some? then Terminated(written) + (Field(kind, value.value) + "\r\n") else Terminated(written)
  {
    if value.Some? {
      Pushed(written, Field(kind, value.value));
    } else {
      assert written + [] == written;
    }
  }

  method AttributesText(attributes: seq<Attribute>) returns (text: string)
    ensures text == Terminated(AttributeFields(attributes))
  {
    text := "";
    var i := 0;
    ghost var written: seq<string> := [];
    assert attributes[0..] == attributes;
    while i < |attributes|
      invariant 0 <= i <= |attributes|
      invariant written + AttributeFields(attributes[i..]) == AttributeFields(attributes)
      invariant text == Terminated(written)
    {
      Pushed(written, AttributeField(attributes[i]));
      text := text + (AttributeField(attributes[i]) + "\r\n");
      assert attributes[i..][1..] == attributes[i + 1..];
      assert written + AttributeFields(attributes[i..])
        == written + [AttributeField(attributes[i])] + AttributeFields(attributes[i + 1..]);
      written := written + [AttributeField(attributes[i])];
      i := i + 1;
    }
    assert written + [] == written;
  }

  // --- Which sessions survive ---

  /** The value of a line: no line feed, no space at its end. */
  predicate IsValue(s: string) {
    '\n' !in s && EndsPlain(s)
  }

  predicate IsWord(s: string) {
    s != "" && forall i :: 0 <= i < |s| ==> !IsSpace(s[i])
  }

  /** Any attribute a parsed session may hold. */
  predicate PlausibleAttribute(a: Attribute) {
    ':' !in a.0 && NoLf(a.0) && IsValue(a.1)
  }

  predicate IsAttribute(a: Attribute) {
    PlausibleAttribute(a) && (a.1 == "" ==> EndsPlain(a.0))
  }

  predicate PlausibleAttributes(attributes: seq<Attribute>) {
    forall i :: 0 <= i < |attributes| ==> PlausibleAttribute(attributes[i])
  }

  predicate AreAttributes(attributes: seq<Attribute>) {
    forall i :: 0 <= i < |attributes| ==> IsAttribute(attributes[i])
  }

  /** Any media a parsed session may hold. */
  predicate PlausibleMedia(m: Media) {
    && NoLf(m.mediaType) && ' ' !in m.mediaType && m.port <= 0xFFFF && NoLf(m.proto) && ' ' !in m.proto
    && (forall i :: 0 <= i < |m.payloadTypes| ==> m.payloadTypes[i] <= 0xFF)
    && PlausibleAttributes(m.attributes)
  }

  /** Only without payload types does the transport end its line; then it must be there and end plain. */
  predicate IsMedia(m: Media) {
    && PlausibleMedia(m) && AreAttributes(m.attributes)
    && (m.payloadTypes == [] ==> m.proto != "" && EndsPlain(m.proto))
  }

  predicate AllPlausible(media: seq<Media>) {
    forall i :: 0 <= i < |media| ==> PlausibleMedia(media[i])
  }

  predicate AreMedia(media: seq<Media>) {
    forall i :: 0 <= i < |media| ==> IsMedia(media[i])
  }

  /** Both times or neither, and not both zero: `t=0 0` stands for no time constraint. */
  predicate IsTiming(start: Option<nat>, end: Option<nat>) {
    || (start == None && end == None)
    || (start.Some? && end.Some? && start.value <= MAX_U64 && end.value <= MAX_U64
        && (start.value != 0 || end.value != 0))
  }

  /** Any parsed session. */
  predicate Plausible(s: Session) {
    && IsValue(s.origin) && IsValue(s.name)
    && (s.connection.Some? ==> IsValue(s.connection.value))
    && (s.bandwidth.Some? ==> IsValue(s.bandwidth.value))
    && IsTiming(s.start, s.end)
    && AllPlausible(s.media)
  }

  predicate WellFormed(s: Session) {
    && s.origin != "" && IsValue(s.origin) && s.name != "" && IsValue(s.name)
    && (s.connection.Some? ==> IsValue(s.connection.value))
    && (s.bandwidth.Some? ==> IsValue(s.bandwidth.value))
    && s.ssrc == None && IsTiming(s.start, s.end)
    && AreMedia(s.media)
  }

  /** A printed field is read as its kind and its value, less the spaces at the value's end. */
  lemma FieldIsTrimmed(st: Session, kind: char, value: string)
    requires !IsSpace(kind)
    ensures ReadLine(st, Field(kind, value)) == ReadField(st, kind, TrimEnd(value))
  {
    var l := Field(kind, value);
    TrimEndBehind([kind] + "=", value);
    hide ReadField, TrimEnd, IsSpace;
    assert Trim(l) == [kind] + "=" + TrimEnd(value);
    assert Trim(l)[2..] == TrimEnd(value);
  }

  lemma FieldIsRead(st: Session, kind: char, value: string)
    requires !IsSpace(kind) && EndsPlain(value)
    ensures ReadLine(st, Field(kind, value)) == ReadField(st, kind, value)
  {
    FieldIsTrimmed(st, kind, value);
  }

  // Words of printed numbers.

  lemma {:induction false} WordLengthIs(w: string, rest: string)
    requires (forall i :: 0 <= i < |w| ==> !IsSpace(w[i])) && (rest == "" || IsSpace(rest[0]))
    ensures WordLength(w + rest) == |w|
  {
    if w == "" {
      assert w + rest == rest;
    } else {
      assert (w + rest)[1..] == w[1..] + rest;
      WordLengthIs(w[1..], rest);
    }
  }

  lemma WordIsCut(w: string, rest: string)
    requires IsWord(w) && (rest == "" || IsSpace(rest[0]))
    ensures Words(w + rest) == [w] + Words(rest)
  {
    var s := w + rest;
    WordLengthIs(w, rest);
    assert TrimStart(s) == s;
    assert s[..|w|] == w && s[|w|..] == rest;
  }

  lemma WordsBehindSpace(s: string)
    ensures Words(" " + s) == Words(s)
  {
    assert (" " + s)[1..] == s;
  }

  lemma {:induction false} DecimalIsWord(n: nat)
    ensures IsWord(Decimal(n)) && ' ' !in Decimal(n) && '/' !in Decimal(n) && '\n' !in Decimal(n)
  {
    assert AllDigits(Decimal(n));
  }

  function Decimals(ns: seq<nat>): seq<string> {
    if ns == [] then [] else [Decimal(ns[0])] + Decimals(ns[1..])
  }

  lemma OneNumberIsAWord(n: nat)
    ensures Words(Decimal(n)) == [Decimal(n)]
  {
    DecimalIsWord(n);
    hide Decimal, IsWord;
    WordIsCut(Decimal(n), "");
    assert Decimal(n) + "" == Decimal(n);
  }

  lemma NumberAndMoreAreWords(n: nat, more: string)
    ensures Words(Decimal(n) + " " + more) == [Decimal(n)] + Words(more)
  {
    DecimalIsWord(n);
    hide Decimal, IsWord, Words;
    WordIsCut(Decimal(n), " " + more);
    WordsBehindSpace(more);
    assert Decimal(n) + " " + more == Decimal(n) + (" " + more);
  }

  lemma {:induction false} NumbersAreWords(ns: seq<nat>)
    ensures Words(Numbers(ns)) == Decimals(ns)
  {
    if |ns| == 1 {
      OneNumberIsAWord(ns[0]);
      assert ns[1..] == [];
    } else if |ns| > 1 {
      hide Decimal, Words;
      NumbersAreWords(ns[1..]);
      NumberAndMoreAreWords(ns[0], Numbers(ns[1..]));
    }
  }

  lemma {:induction false} DecimalsAreRead(ns: seq<nat>)
    requires forall i :: 0 <= i < |ns| ==> ns[i] <= 0xFF
    ensures PayloadTypes(Decimals(ns)) == ns
  {
    if ns != [] {
      ParsePrinted(ns[0], 0xFF);
      DecimalsAreRead(ns[1..]);
      assert Decimals(ns)[1..] == Decimals(ns[1..]);
      assert [ns[0]] + ns[1..] == ns;
    }
  }

  lemma TimingIsRead(st: Session, s: nat, e: nat)
    requires s <= MAX_U64 && e <= MAX_U64
    ensures ReadTiming(st, Decimal(s) + " " + Decimal(e))
      == if s != 0 || e != 0 then st.(start := Some(s), end := Some(e)) else st
  {
    assert Numbers([s, e]) == Decimal(s) + " " + Decimal(e) by { assert [s, e][1..] == [e]; }
    NumbersAreWords([s, e]);
    assert [s, e][1..] == [e] && [e][1..] == [];
    assert Decimals([e]) == [Decimal(e)];
    assert Decimals([s, e]) == [Decimal(s), Decimal(e)];
    ParsePrinted(s, MAX_U64);
    ParsePrinted(e, MAX_U64);
    hide Decimal, ParseUnsigned, Words;
  }

  // One line at a time.

  lemma TwoPartsAreCut(a: string, b: string)
    requires ' ' !in a && ' ' !in b
    ensures SplitAtMost(a + " " + b, 4) == [a, b]
  {
    hide SplitAtMost;
    SplitAtMostPrefix(a, b, 4);
    SplitAtMostWhole(b, 3);
  }

  lemma ThreePartsAreCut(a: string, b: string, c: string)
    requires ' ' !in a && ' ' !in b && ' ' !in c
    ensures SplitAtMost(a + " " + (b + " " + c), 4) == [a, b, c]
  {
    hide SplitAtMost;
    SplitAtMostPrefix(a, b + " " + c, 4);
    SplitAtMostPrefix(b, c, 3);
    SplitAtMostWhole(c, 2);
  }

  lemma FourPartsAreCut(a: string, b: string, c: string, rest: string)
    requires ' ' !in a && ' ' !in b && ' ' !in c
    ensures SplitAtMost(a + " " + (b + " " + (c + " " + rest)), 4) == [a, b, c, rest]
  {
    hide SplitAtMost;
    SplitAtMostPrefix(a, b + " " + (c + " " + rest), 4);
    SplitAtMostPrefix(b, c + " " + rest, 3);
    SplitAtMostPrefix(c, rest, 2);
    SplitAtMostWhole(rest, 1);
  }

  lemma PortIsRead(port: nat)
    requires port <= 0xFFFF
    ensures Port(Decimal(port)) == port
  {
    DecimalIsWord(port);
    ParsePrinted(port, 0xFFFF);
    hide Decimal, ParseUnsigned;
    IndexOfAbsent(Decimal(port), '/');
    assert Decimal(port)[..|Decimal(port)|] == Decimal(port);
  }

  lemma {:induction false} NumbersEndPlain(ns: seq<nat>)
    requires ns != []
    ensures Numbers(ns) != "" && EndsPlain(Numbers(ns)) && '\n' !in Numbers(ns)
  {
    DecimalIsWord(ns[0]);
    if |ns| > 1 {
      NumbersEndPlain(ns[1..]);
    }
  }

  /** A media whose line ends in spaces alone behind the port is not read as one. */
  predicate Kept(m: Media) {
    m.payloadTypes != [] || TrimEnd(m.proto) != ""
  }

  predicate AreKept(media: seq<Media>) {
    forall i :: 0 <= i < |media| ==> Kept(media[i])
  }

  function ProtoBack(m: Media): string {
    if m.payloadTypes == [] then TrimEnd(m.proto) else m.proto
  }

  /** What a printed media line is read as. */
  function Bare(m: Media): Media {
    m.(proto := ProtoBack(m), attributes := [])
  }

  function AttributeBack(a: Attribute): Attribute {
    if a.1 == "" then (TrimEnd(a.0), "") else a
  }

  function AttributesBack(attributes: seq<Attribute>): (back: seq<Attribute>)
    ensures |back| == |attributes|
  {
    if attributes == [] then [] else [AttributeBack(attributes[0])] + AttributesBack(attributes[1..])
  }

  function MediaBack(m: Media): Media {
    m.(proto := ProtoBack(m), attributes := AttributesBack(m.attributes))
  }

  function AllBack(media: seq<Media>): seq<Media> {
    if media == [] then [] else [MediaBack(media[0])] + AllBack(media[1..])
  }

  lemma MediaKind(st: Session, value: string)
    ensures ReadField(st, 'm', value) == ReadMedia(st, value)
  {
  }

  /** Behind the port's last digit only spaces and the transport are left to trim. */
  lemma TrimmedWithoutTypes(m: Media)
    ensures TrimEnd(m.mediaType + " " + (Decimal(m.port) + " " + (m.proto + " ")))
      == if TrimEnd(m.proto) == "" then m.mediaType + " " + Decimal(m.port)
         else m.mediaType + " " + (Decimal(m.port) + " " + TrimEnd(m.proto))
  {
    DecimalIsWord(m.port);
    var d := Decimal(m.port);
    var front := m.mediaType + " " + d;
    assert front[|front| - 1] == d[|d| - 1];
    hide Decimal;
    ProtoInSpaces(m.proto);
    hide TrimEnd, IsSpace, IsWord;
    TrimEndBehind(front, " " + (m.proto + " "));
    Regrouped(m.mediaType, d, m.proto + " ");
    Regrouped(m.mediaType, d, TrimEnd(m.proto));
    assert front + "" == front;
  }

  lemma Regrouped(a: string, b: string, c: string)
    ensures (a + " " + b) + (" " + c) == a + " " + (b + " " + c)
  {
  }

  lemma ProtoInSpaces(proto: string)
    ensures TrimEnd(" " + (proto + " ")) == if TrimEnd(proto) == "" then "" else " " + TrimEnd(proto)
  {
    assert (proto + " ")[..|proto|] == proto;
    assert TrimEnd(proto + " ") == TrimEnd(proto);
    TrimEndAppend(" ", proto + " ");
    assert " "[..0] == "";
  }

  lemma MediaWithoutTypes(st: Session, m: Media)
    requires PlausibleMedia(m) && m.payloadTypes == []
    ensures ReadLine(st, MediaField(m)) == if Kept(m) then st.(media := st.media + [Bare(m)]) else st
  {
    DecimalIsWord(m.port);
    PortIsRead(m.port);
    TrimmedWithoutTypes(m);
    TrimEndIsPrefix(m.proto);
    hide Decimal, TrimEnd, Port, ReadLine;
    var value := m.mediaType + " " + (Decimal(m.port) + " " + (m.proto + " "));
    assert MediaField(m) == Field('m', value);
    FieldIsTrimmed(st, 'm', value);
    MediaKind(st, TrimEnd(value));
    hide ReadField, SplitAtMost;
    TwoPartsAreCut(m.mediaType, Decimal(m.port));
    ThreePartsAreCut(m.mediaType, Decimal(m.port), TrimEnd(m.proto));
  }

  lemma MediaWithTypes(st: Session, m: Media)
    requires PlausibleMedia(m) && m.payloadTypes != []
    ensures ReadLine(st, MediaField(m)) == st.(media := st.media + [Bare(m)])
  {
    var n := Numbers(m.payloadTypes);
    var value := m.mediaType + " " + (Decimal(m.port) + " " + (m.proto + " " + n));
    assert MediaField(m) == Field('m', value);
    PortIsRead(m.port);
    TypesAreRead(m.payloadTypes);
    DecimalIsWord(m.port);
    NumbersEndPlain(m.payloadTypes);
    hide Decimal, Numbers, Words, PayloadTypes, ReadLine, ReadField, Port, SplitAtMost, Field, MediaField;
    assert value[|value| - 1] == n[|n| - 1];
    FieldIsRead(st, 'm', value);
    MediaKind(st, value);
    FourPartsAreCut(m.mediaType, Decimal(m.port), m.proto, n);
  }

  lemma TypesAreRead(types: seq<nat>)
    requires forall i :: 0 <= i < |types| ==> types[i] <= 0xFF
    ensures PayloadTypes(Words(Numbers(types))) == types
  {
    NumbersAreWords(types);
    DecimalsAreRead(types);
  }

  lemma MediaFieldIsRead(st: Session, m: Media)
    requires PlausibleMedia(m)
    ensures ReadLine(st, MediaField(m)) == if Kept(m) then st.(media := st.media + [Bare(m)]) else st
  {
    hide ReadLine, MediaField, PlausibleMedia, Bare;
    if m.payloadTypes == [] {
      MediaWithoutTypes(st, m);
    } else {
      MediaWithTypes(st, m);
    }
  }

  /** A printed attribute is added as itself, but for spaces at the end of a name without a value. */
  lemma AttributeIsRead(st: Session, a: Attribute)
    requires PlausibleAttribute(a)
    ensures ReadLine(st, AttributeField(a)) == AddAttribute(st, AttributeBack(a))
  {
    AttributeIsCut(a);
    var value := if a.1 == "" then a.0 else a.0 + ":" + a.1;
    FieldIsTrimmed(st, 'a', value);
    hide AttributeOf, AttributeBack, TrimEnd, ReadLine, AddAttribute;
  }

  lemma AttributeIsCut(a: Attribute)
    requires PlausibleAttribute(a)
    ensures AttributeOf(TrimEnd(if a.1 == "" then a.0 else a.0 + ":" + a.1)) == AttributeBack(a)
  {
    var value := if a.1 == "" then a.0 else a.0 + ":" + a.1;
    if a.1 == "" {
      TrimEndIsPrefix(a.0);
      IndexOfAbsent(TrimEnd(a.0), ':');
    } else {
      assert value == a.0 + [':'] + a.1;
      assert value[|value| - 1] == a.1[|a.1| - 1];
      IndexAfterPrefix(a.0, ':', a.1);
      assert value[..|a.0|] == a.0 && value[|a.0| + 1..] == a.1;
    }
  }

  lemma OneAttributeIsRead(st: Session, media: seq<Media>, m: Media, a: Attribute)
    requires st.media == media + [m] && PlausibleAttribute(a)
    ensures ReadLine(st, AttributeField(a)) == st.(media := media + [WithAttribute(m, AttributeBack(a))])
  {
    AttributeIsRead(st, a);
    hide ReadLine, AttributeField, PlausibleAttribute, AttributeBack;
    var m' := WithAttribute(m, AttributeBack(a));
    assert st.media[|media| := m'] == media + [m'];
  }

  lemma ReadLinesFront(st: Session, line: string, rest: seq<string>)
    ensures ReadLines(st, [line] + rest) == ReadLines(ReadLine(st, line), rest)
  {
    hide ReadLine;
    assert ([line] + rest)[1..] == rest;
  }

  lemma {:induction false} AttributesAreRead(st: Session, media: seq<Media>, m: Media, attributes: seq<Attribute>)
    requires st.media == media + [m] && PlausibleAttributes(attributes)
    ensures ReadLines(st, AttributeFields(attributes))
      == st.(media := media + [m.(attributes := m.attributes + AttributesBack(attributes))])
    decreases |attributes|
  {
    hide ReadLine, ReadLines, AttributeField, AttributeFields, PlausibleAttribute, PlausibleAttributes;
    hide WithAttribute, AttributeBack, AttributesBack;
    if attributes == [] {
      NoAttributes(st, m);
    } else {
      var a := attributes[0];
      FirstAttribute(m, attributes);
      OneAttributeIsRead(st, media, m, a);
      ReadLinesFront(st, AttributeField(a), AttributeFields(attributes[1..]));
      var m' := WithAttribute(m, AttributeBack(a));
      AttributesAreRead(st.(media := media + [m']), media, m', attributes[1..]);
    }
  }

  lemma NoAttributes(st: Session, m: Media)
    ensures ReadLines(st, AttributeFields([])) == st
    ensures m.(attributes := m.attributes + AttributesBack([])) == m
  {
    assert m.attributes + [] == m.attributes;
  }

  lemma FirstAttribute(m: Media, attributes: seq<Attribute>)
    requires attributes != [] && PlausibleAttributes(attributes)
    ensures PlausibleAttribute(attributes[0]) && PlausibleAttributes(attributes[1..])
    ensures AttributeFields(attributes) == [AttributeField(attributes[0])] + AttributeFields(attributes[1..])
    ensures
      var m' := WithAttribute(m, AttributeBack(attributes[0]));
      m'.(attributes := m'.attributes + AttributesBack(attributes[1..]))
        == m.(attributes := m.attributes + AttributesBack(attributes))
  {
    var (first, rest) := (AttributeBack(attributes[0]), AttributesBack(attributes[1..]));
    assert m.attributes + [first] + rest == m.attributes + ([first] + rest);
  }

  /** Whatever media they fall to, attribute lines change no more than attributes. */
  lemma {:induction false} AttributesAddNoMedia(st: Session, attributes: seq<Attribute>)
    requires PlausibleAttributes(attributes)
    ensures OnlyMedia(st, ReadLines(st, AttributeFields(attributes)), 0)
    decreases |attributes|
  {
    hide ReadLine, ReadLines, AttributeField, AttributeFields, PlausibleAttribute, PlausibleAttributes, AttributeBack;
    var m := Media("", 0, "", [], []);
    if attributes == [] {
      NoAttributes(st, m);
    } else {
      var a := attributes[0];
      FirstAttribute(m, attributes);
      AttributeIsRead(st, a);
      ReadLinesFront(st, AttributeField(a), AttributeFields(attributes[1..]));
      AttributesAddNoMedia(AddAttribute(st, AttributeBack(a)), attributes[1..]);
    }
  }

  /** Only the media differ, and there are n more of them. */
  predicate OnlyMedia(st: Session, next: Session, n: nat) {
    next == st.(media := next.media) && |next.media| == |st.media| + n
  }

  lemma {:induction false} ReadLinesAppend(st: Session, a: seq<string>, b: seq<string>)
    ensures ReadLines(st, a + b) == ReadLines(ReadLines(st, a), b)
    decreases |a|
  {
    if a == [] {
      assert a + b == b;
    } else {
      assert (a + b)[1..] == a[1..] + b;
      ReadLinesAppend(ReadLine(st, a[0]), a[1..], b);
    }
  }

  lemma OneLineRead(st: Session, line: string)
    ensures ReadLines(st, [line]) == ReadLine(st, line)
  {
    assert [line][1..] == [];
  }

  lemma OneMediaIsRead(st: Session, m: Media)
    requires PlausibleMedia(m) && Kept(m)
    ensures ReadLines(st, [MediaField(m)] + AttributeFields(m.attributes)) == st.(media := st.media + [MediaBack(m)])
  {
    MediaFieldIsRead(st, m);
    hide ReadLine, MediaField, AttributeFields, ReadLines, PlausibleAttributes, ProtoBack, AttributesBack, Kept;
    OneLineRead(st, MediaField(m));
    AttributesAreRead(st.(media := st.media + [Bare(m)]), st.media, Bare(m), m.attributes);
    ReadLinesAppend(st, [MediaField(m)], AttributeFields(m.attributes));
    assert [] + AttributesBack(m.attributes) == AttributesBack(m.attributes);
  }

  lemma OneMediaIsCounted(st: Session, m: Media)
    requires PlausibleMedia(m)
    ensures OnlyMedia(
      st, ReadLines(st, [MediaField(m)] + AttributeFields(m.attributes)), if Kept(m) then 1 else 0)
  {
    MediaFieldIsRead(st, m);
    hide ReadLine, MediaField, AttributeFields, ReadLines, PlausibleAttributes, Kept;
    OneLineRead(st, MediaField(m));
    AttributesAddNoMedia(ReadLine(st, MediaField(m)), m.attributes);
    ReadLinesAppend(st, [MediaField(m)], AttributeFields(m.attributes));
  }

  lemma {:induction false} MediaAreRead(st: Session, media: seq<Media>)
    requires AllPlausible(media) && AreKept(media)
    ensures ReadLines(st, MediaFields(media)) == st.(media := st.media + AllBack(media))
    decreases |media|
  {
    hide ReadLine, MediaField, MediaFields, AttributeFields, ReadLines, PlausibleMedia, AllPlausible, Kept, AreKept;
    hide MediaBack, AllBack;
    if media == [] {
      NoMedia(st);
    } else {
      FirstMedia(media);
      OneMediaIsRead(st, media[0]);
      var first := [MediaField(media[0])] + AttributeFields(media[0].attributes);
      ReadLinesAppend(st, first, MediaFields(media[1..]));
      MediaAreRead(st.(media := st.media + [MediaBack(media[0])]), media[1..]);
      assert st.media + [MediaBack(media[0])] + AllBack(media[1..]) == st.media + AllBack(media);
    }
  }

  function KeptCount(media: seq<Media>): nat {
    if media == [] then 0 else (if Kept(media[0]) then 1 else 0) + KeptCount(media[1..])
  }

  lemma {:induction false} AllCounted(media: seq<Media>)
    ensures KeptCount(media) <= |media|
    ensures KeptCount(media) == |media| ==> AreKept(media)
  {
    if media != [] {
      AllCounted(media[1..]);
    }
  }

  /** As many media are read as are kept; nothing else in the session changes. */
  lemma {:induction false} MediaAreCounted(st: Session, media: seq<Media>)
    requires AllPlausible(media)
    ensures OnlyMedia(st, ReadLines(st, MediaFields(media)), KeptCount(media))
    decreases |media|
  {
    hide ReadLine, MediaField, MediaFields, AttributeFields, ReadLines, PlausibleMedia, AllPlausible, Kept;
    if media == [] {
      NoMedia(st);
    } else {
      FirstMedia(media);
      OneMediaIsCounted(st, media[0]);
      var first := [MediaField(media[0])] + AttributeFields(media[0].attributes);
      ReadLinesAppend(st, first, MediaFields(media[1..]));
      MediaAreCounted(ReadLines(st, first), media[1..]);
    }
  }

  lemma NoMedia(st: Session)
    ensures ReadLines(st, MediaFields([])) == st && st.(media := st.media + AllBack([])) == st
  {
    assert st.media + [] == st.media;
  }

  lemma FirstMedia(media: seq<Media>)
    requires media != [] && AllPlausible(media)
    ensures PlausibleMedia(media[0]) && AllPlausible(media[1..])
    ensures AreKept(media) ==> Kept(media[0]) && AreKept(media[1..])
    ensures MediaFields(media)
      == [MediaField(media[0])] + AttributeFields(media[0].attributes) + MediaFields(media[1..])
    ensures AllBack(media) == [MediaBack(media[0])] + AllBack(media[1..])
  {
    hide MediaField, AttributeFields, MediaBack, Kept, PlausibleMedia;
  }

  lemma PlainIsUntrimmed(s: string)
    ensures TrimEnd(s) == s <==> EndsPlain(s)
  {
    TrimEndTrims(s);
  }

  lemma {:induction false} AttributesComeBack(attributes: seq<Attribute>)
    requires PlausibleAttributes(attributes)
    ensures AttributesBack(attributes) == attributes <==> AreAttributes(attributes)
  {
    if attributes != [] {
      var (first, rest) := (attributes[0], attributes[1..]);
      PlainIsUntrimmed(first.0);
      hide EndsPlain, TrimEnd;
      AttributesComeBack(rest);
      assert attributes == [first] + rest;
      AttributesSplit(first, rest);
    }
  }

  lemma AttributesSplit(first: Attribute, rest: seq<Attribute>)
    ensures AreAttributes([first] + rest) <==> IsAttribute(first) && AreAttributes(rest)
  {
    hide IsAttribute;
    var all := [first] + rest;
    assert all[0] == first && all[1..] == rest;
  }

  lemma MediaComesBack(m: Media)
    requires PlausibleMedia(m)
    ensures Kept(m) && MediaBack(m) == m <==> IsMedia(m)
  {
    PlainIsUntrimmed(m.proto);
    AttributesComeBack(m.attributes);
    hide EndsPlain, TrimEnd, AttributesBack, AreAttributes;
  }

  lemma {:induction false} AllComeBack(media: seq<Media>)
    requires AllPlausible(media)
    ensures AreKept(media) && AllBack(media) == media <==> AreMedia(media)
  {
    if media != [] {
      var (first, rest) := (media[0], media[1..]);
      MediaComesBack(first);
      hide PlausibleMedia, Kept, MediaBack, IsMedia;
      AllComeBack(rest);
      assert media == [first] + rest;
      MediaSplit(first, rest);
    }
  }

  lemma MediaSplit(first: Media, rest: seq<Media>)
    ensures AreMedia([first] + rest) <==> IsMedia(first) && AreMedia(rest)
    ensures AreKept([first] + rest) <==> Kept(first) && AreKept(rest)
  {
    hide IsMedia, Kept;
    var all := [first] + rest;
    assert all[0] == first && all[1..] == rest;
  }

  lemma OptionalIsRead(st: Session, kind: char, value: Option<string>)
    requires kind == 'c' || kind == 'b'
    requires value.Some? ==> IsValue(value.value)
    ensures ReadLines(st, OptionalField(kind, value))
      == match value
         case None => st
         case Some(v) => if kind == 'c' then st.(connection := Some(v)) else st.(bandwidth := Some(v))
  {
    if value.Some? {
      FieldIsRead(st, kind, value.value);
      OneLineRead(st, Field(kind, value.value));
    }
  }

  lemma PairEndsPlain(a: string, b: string)
    requires IsWord(b)
    ensures EndsPlain(a + " " + b)
  {
    var s := a + " " + b;
    assert s[|s| - 1] == b[|b| - 1];
  }

  lemma TwoTimesAreRead(st: Session, s: nat, e: nat)
    requires s <= MAX_U64 && e <= MAX_U64
    ensures ReadLine(st, Field('t', Decimal(s) + " " + Decimal(e)))
      == if s != 0 || e != 0 then st.(start := Some(s), end := Some(e)) else st
  {
    DecimalIsWord(e);
    hide Decimal, IsWord, EndsPlain, ReadLine, ReadTiming;
    PairEndsPlain(Decimal(s), Decimal(e));
    FieldIsRead(st, 't', Decimal(s) + " " + Decimal(e));
    TimingIsRead(st, s, e);
  }

  lemma TimingFieldIsRead(st: Session, s: Session)
    requires IsTiming(s.start, s.end) && st.start == None && st.end == None
    ensures ReadLine(st, TimingField(s)) == st.(start := s.start, end := s.end)
  {
    if s.start.Some? {
      TwoTimesAreRead(st, s.start.value, s.end.value);
    } else {
      TwoTimesAreRead(st, 0, 0);
      assert Decimal(0) + " " + Decimal(0) == "0 0";
    }
    hide Decimal, ReadLine, Field;
  }

  function BeforeMedia(s: Session): seq<string> {
    ["v=0", Field('o', s.origin), Field('s', s.name)] + OptionalField('c', s.connection)
    + OptionalField('b', s.bandwidth) + [TimingField(s)]
  }

  /** The fields in front of the media, read in the order they are printed. */
  lemma FrontIsRead(s: Session)
    requires Plausible(s)
    ensures ReadLines(BLANK, BeforeMedia(s)) == s.(ssrc := None, media := [])
  {
    hide ReadLine, ReadLines, IsTiming, AllPlausible, IsValue, MediaFields, OptionalField, TimingField;
    var head := ["v=0", Field('o', s.origin), Field('s', s.name)];
    var s1 := BLANK.(origin := s.origin, name := s.name);
    HeadIsRead(s);
    var s2 := s1.(connection := s.connection);
    OptionalIsRead(s1, 'c', s.connection);
    ReadLinesAppend(BLANK, head, OptionalField('c', s.connection));
    var s3 := s2.(bandwidth := s.bandwidth);
    OptionalIsRead(s2, 'b', s.bandwidth);
    ReadLinesAppend(BLANK, head + OptionalField('c', s.connection), OptionalField('b', s.bandwidth));
    TimingFieldIsRead(s3, s);
    OneLineRead(s3, TimingField(s));
    ReadLinesAppend(
      BLANK, head + OptionalField('c', s.connection) + OptionalField('b', s.bandwidth), [TimingField(s)]);
  }

  /** A printed session reads as itself without SSRC exactly if each of its media comes back. */
  lemma FieldsAreRead(s: Session)
    requires Plausible(s)
    ensures ReadLines(BLANK, Fields(s)) == s.(ssrc := None) <==> AreMedia(s.media)
    ensures ReadLines(BLANK, Fields(s)).ssrc == None
  {
    hide ReadLine, ReadLines, IsTiming, IsValue, AreMedia, AreKept, AllPlausible, AllBack, MediaFields, BeforeMedia;
    var front := s.(ssrc := None, media := []);
    FrontIsRead(s);
    ReadLinesAppend(BLANK, BeforeMedia(s), MediaFields(s.media));
    FieldsFront(s);
    MediaAreCounted(front, s.media);
    AllCounted(s.media);
    AllComeBack(s.media);
    if AreKept(s.media) {
      MediaAreRead(front, s.media);
      assert [] + AllBack(s.media) == AllBack(s.media);
    }
  }

  lemma FieldsFront(s: Session)
    ensures Fields(s) == BeforeMedia(s) + MediaFields(s.media)
  {
  }

  lemma HeadIsRead(s: Session)
    requires IsValue(s.origin) && IsValue(s.name)
    ensures ReadLines(BLANK, ["v=0", Field('o', s.origin), Field('s', s.name)])
      == BLANK.(origin := s.origin, name := s.name)
  {
    var a, b, c := "v=0", Field('o', s.origin), Field('s', s.name);
    assert Field('v', "0") == "v=0";
    FieldIsRead(BLANK, 'v', "0");
    FieldIsRead(BLANK, 'o', s.origin);
    var s1 := BLANK.(origin := s.origin);
    FieldIsRead(s1, 's', s.name);
    assert ReadField(BLANK, 'v', "0") == BLANK;
    hide ReadLine, Field;
    OneLineRead(s1, c);
    OneLineRead(BLANK, b);
    OneLineRead(BLANK, a);
    ReadLinesAppend(BLANK, [a], [b]);
    ReadLinesAppend(BLANK, [a] + [b], [c]);
    assert [a] + [b] + [c] == [a, b, c];
  }

  // No line feed inside a line.

  predicate NoneHasLf(fields: seq<string>) {
    forall i :: 0 <= i < |fields| ==> '\n' !in fields[i]
  }

  lemma {:induction false} AttributeFieldsHaveNoLf(attributes: seq<Attribute>)
    requires PlausibleAttributes(attributes)
    ensures NoneHasLf(AttributeFields(attributes))
  {
    if attributes != [] {
      assert PlausibleAttribute(attributes[0]);
      assert '\n' !in AttributeField(attributes[0]);
      AttributeFieldsHaveNoLf(attributes[1..]);
    }
  }

  lemma MediaFieldHasNoLf(m: Media)
    requires PlausibleMedia(m)
    ensures '\n' !in MediaField(m)
  {
    DecimalIsWord(m.port);
    if m.payloadTypes != [] {
      NumbersEndPlain(m.payloadTypes);
    }
    hide Decimal, Numbers, IsWord;
    if m.payloadTypes == [] {
      assert Numbers(m.payloadTypes) == "" by { NoNumbers(); }
    }
  }

  lemma NoNumbers()
    ensures Numbers([]) == ""
  {
  }

  lemma {:induction false} MediaFieldsHaveNoLf(media: seq<Media>)
    requires AllPlausible(media)
    ensures NoneHasLf(MediaFields(media))
  {
    if media != [] {
      assert PlausibleMedia(media[0]);
      MediaFieldHasNoLf(media[0]);
      AttributeFieldsHaveNoLf(media[0].attributes);
      MediaFieldsHaveNoLf(media[1..]);
      hide MediaField, AttributeFields;
    }
  }

  lemma FieldsHaveNoLf(s: Session)
    requires Plausible(s)
    ensures NoneHasLf(Fields(s))
  {
    MediaFieldsHaveNoLf(s.media);
    if s.start.Some? && s.end.Some? {
      DecimalIsWord(s.start.value);
      DecimalIsWord(s.end.value);
    }
    hide Decimal, MediaFields, PlausibleMedia;
    assert '\n' !in TimingField(s);
    assert NoneHasLf(OptionalField('c', s.connection)) && NoneHasLf(OptionalField('b', s.bandwidth));
    hide TimingField, OptionalField;
  }

  lemma {:induction false} TerminatedLines(fields: seq<string>)
    requires NoneHasLf(fields)
    ensures Lines(Terminated(fields)) == fields
  {
    if fields != [] {
      TerminatedLines(fields[1..]);
      LinesFront(fields[0], Terminated(fields[1..]));
      assert [fields[0]] + fields[1..] == fields;
    }
  }

  // What any parsed session looks like.

  lemma {:induction false} SplitAtMostParts(s: string, n: nat)
    requires NoLf(s)
    ensures forall i :: 0 <= i < |SplitAtMost(s, n)| ==> NoLf(SplitAtMost(s, n)[i])
    ensures forall i :: 0 <= i < |SplitAtMost(s, n)| && i < n - 1 ==> ' ' !in SplitAtMost(s, n)[i]
    decreases n
  {
    var i := IndexOf(s, ' ');
    if n > 1 && i < |s| {
      SplitAtMostParts(s[i + 1..], n - 1);
    } else if n > 1 {
      assert s[..i] == s;
    }
  }

  lemma {:induction false} PayloadTypesAreOctets(words: seq<string>)
    ensures forall i :: 0 <= i < |PayloadTypes(words)| ==> PayloadTypes(words)[i] <= 0xFF
  {
    if words != [] {
      PayloadTypesAreOctets(words[1..]);
    }
  }

  lemma ReadMediaIsPlausible(st: Session, value: string)
    requires Plausible(st) && NoLf(value)
    ensures Plausible(ReadMedia(st, value))
  {
    var parts := SplitAtMost(value, 4);
    SplitAtMostParts(value, 4);
    if |parts| > 3 {
      PayloadTypesAreOctets(Words(parts[3]));
    }
    hide SplitAtMost, Words, PayloadTypes, ParseUnsigned, IsValue, IsTiming, NoLf;
  }

  lemma AttributeOfIsPlausible(value: string)
    requires IsValue(value)
    ensures PlausibleAttribute(AttributeOf(value))
  {
    var i := IndexOf(value, ':');
    if i == |value| {
      assert value[..i] == value;
    }
  }

  lemma ReadAttributeIsPlausible(st: Session, value: string)
    requires Plausible(st) && IsValue(value)
    ensures Plausible(ReadAttribute(st, value))
  {
    AttributeOfIsPlausible(value);
    hide AttributeOf, PlausibleAttribute, IsValue, IsTiming;
    if st.media != [] {
      var m := st.media[|st.media| - 1];
      assert PlausibleMedia(m);
      assert PlausibleMedia(WithAttribute(m, AttributeOf(value)));
      hide PlausibleMedia, WithAttribute;
    }
  }

  lemma ReadFieldIsPlausible(st: Session, kind: char, value: string)
    requires Plausible(st) && IsValue(value)
    ensures Plausible(ReadField(st, kind, value))
  {
    hide IsValue, AllPlausible, ReadMedia, ReadAttribute, Words, ParseUnsigned, Trim;
    if kind == 'm' {
      assert NoLf(value) by { ValueHasNoLf(value); }
      ReadMediaIsPlausible(st, value);
    } else if kind == 'a' {
      ReadAttributeIsPlausible(st, value);
    } else if kind == 't' {
      ReadTimingIsTiming(st, value);
    }
  }

  lemma ValueHasNoLf(value: string)
    requires IsValue(value)
    ensures NoLf(value)
  {
  }

  lemma ReadTimingIsTiming(st: Session, value: string)
    requires IsTiming(st.start, st.end)
    ensures IsTiming(ReadTiming(st, value).start, ReadTiming(st, value).end)
  {
    hide Words;
  }

  lemma ReadLineIsPlausible(st: Session, line: string)
    requires Plausible(st) && NoLf(line)
    ensures Plausible(ReadLine(st, line))
  {
    var l := Trim(line);
    TrimIsTrimmed(line);
    TrimKeepsOut(line, '\n');
    hide Trim, ReadField, Plausible;
    if |l| >= 2 {
      assert IsValue(l[2..]);
      ReadFieldIsPlausible(st, l[0], l[2..]);
    }
  }

  lemma {:induction false} ReadLinesArePlausible(st: Session, lines: seq<string>)
    requires Plausible(st) && forall i :: 0 <= i < |lines| ==> NoLf(lines[i])
    ensures Plausible(ReadLines(st, lines))
    decreases |lines|
  {
    if lines != [] {
      ReadLineIsPlausible(st, lines[0]);
      hide ReadLine, Plausible, NoLf;
      ReadLinesArePlausible(ReadLine(st, lines[0]), lines[1..]);
    }
  }

  lemma ParsedIsPlausible(data: string)
    requires Parse(data).Some?
    ensures Plausible(Parse(data).value)
  {
    LinesHaveNoLf(data);
    assert Plausible(BLANK);
    hide Lines, ReadLines, Plausible, NoLf;
    ReadLinesArePlausible(BLANK, Lines(data));
  }

  /**
   * A session comes back from its text exactly if it is well-formed: no line feed in its values and no space at their
   * ends, times that stand for themselves, media of one-word types with ports of 16 bits and octets for payload types,
   * a transport of one word that is there and ends plain if no payload type follows it, and no SSRC.
   */
  lemma SdpRoundTrip(s: Session)
    ensures Parse(Serialize(s)) == Some(s) <==> WellFormed(s)
  {
    if WellFormed(s) {
      WellFormedIsPlausible(s);
    } else if Parse(Serialize(s)) == Some(s) {
      ParsedIsPlausible(Serialize(s));
    }
    hide Fields, ReadLines, Lines, Terminated, IsValue, IsTiming, AreMedia, AllPlausible;
    if Plausible(s) {
      FieldsHaveNoLf(s);
      TerminatedLines(Fields(s));
      FieldsAreRead(s);
    }
  }

  lemma WellFormedIsPlausible(s: Session)
    requires WellFormed(s)
    ensures Plausible(s)
  {
    hide PlausibleMedia, IsValue, IsTiming;
    forall i | 0 <= i < |s.media|
      ensures PlausibleMedia(s.media[i])
    {
      assert IsMedia(s.media[i]);
    }
  }

  /** The serializer prints no `y=` line, so whatever is parsed from its text never has an SSRC from it. */
  lemma SsrcIsNotPrinted(s: Session, ssrc: nat)
    requires WellFormed(s)
    ensures Parse(Serialize(s.(ssrc := Some(ssrc)))) == Some(s)
  {
    SdpRoundTrip(s);
    hide Serialize, Parse;
    assert Serialize(s.(ssrc := Some(ssrc))) == Serialize(s) by { SsrcIsNoField(s, ssrc); }
  }

  lemma SsrcIsNoField(s: Session, ssrc: nat)
    ensures Serialize(s.(ssrc := Some(ssrc))) == Serialize(s)
  {
    hide Terminated, MediaFields, TimingField;
    assert TimingField(s.(ssrc := Some(ssrc))) == TimingField(s) by { TimingWithoutSsrc(s, ssrc); }
  }

  lemma TimingWithoutSsrc(s: Session, ssrc: nat)
    ensures TimingField(s.(ssrc := Some(ssrc))) == TimingField(s)
  {
  }

  /** A `y=` line of ten digits behind the text gives the session its SSRC. */
  lemma SsrcLineIsRead(s: Session, ssrc: nat)
    requires WellFormed(s) && ssrc <= 0xFFFF_FFFF
    ensures Parse(Serialize(s) + ("y=" + Padded(ssrc, 10) + "\r\n")) == Some(s.(ssrc := Some(ssrc)))
  {
    var line := Field('y', Padded(ssrc, 10));
    assert line == "y=" + Padded(ssrc, 10);
    SsrcIsParsed(s, ssrc);
    WellFormedIsPlausible(s);
    FieldsHaveNoLf(s);
    FieldsAreRead(s);
    hide Fields, Field, Padded, ReadLine, WellFormed;
    var lines := Fields(s) + [line];
    Pushed(Fields(s), line);
    TerminatedLines(lines);
    ReadLinesAppend(BLANK, Fields(s), [line]);
    OneLineRead(s, line);
  }

  lemma SsrcIsParsed(st: Session, ssrc: nat)
    requires ssrc <= 0xFFFF_FFFF
    ensures '\n' !in Field('y', Padded(ssrc, 10))
    ensures ReadLine(st, Field('y', Padded(ssrc, 10))) == st.(ssrc := Some(ssrc))
  {
    var digits := Padded(ssrc, 10);
    assert Pow10(10) == 10_000_000_000;
    PaddedRoundTrip(ssrc, 10);
    hide Padded, Pow10, DecimalValue;
    assert IsDigit(digits[0]) && IsDigit(digits[9]);
    TrimTrimmed(digits);
    FieldIsRead(st, 'y', digits);
  }

  // --- What lines say ---

  /** Only the number in front of a slash is the port; what is no number is 0. */
  lemma PortBeforeSlash(port: nat, count: string)
    ensures Port(Decimal(port) + "/" + count) == (if port <= 65535 then port else 0)
    ensures Port("/" + count) == 0
  {
    DecimalIsWord(port);
    UnsignedIsRead(port, 65535, "");
    hide Decimal, ParseUnsigned, Port;
    FrontIsPort(Decimal(port), count);
    FrontIsPort("", count);
    assert "" + "/" + count == "/" + count;
  }

  lemma FrontIsPort(front: string, count: string)
    requires '/' !in front
    ensures Port(front + "/" + count) ==
      match ParseUnsigned(front, 65535) case Some(p) => p case None => 0
  {
    hide ParseUnsigned, IndexOf;
    var s := front + "/" + count;
    assert s == front + ['/'] + count;
    IndexAfterPrefix(front, '/', count);
    assert s[..|front|] == front;
  }

  /** Words that are no octets are passed over, the others kept in order. */
  lemma OctetsAreKept(word: string, rest: seq<string>, n: nat)
    ensures n <= 255 ==> PayloadTypes([Decimal(n)] + rest) == [n] + PayloadTypes(rest)
    ensures ParseUnsigned(word, 255) == None ==> PayloadTypes([word] + rest) == PayloadTypes(rest)
  {
    UnsignedIsRead(n, 255, "");
    hide Decimal, ParseUnsigned;
    assert ([Decimal(n)] + rest)[1..] == rest && ([word] + rest)[1..] == rest;
  }

  lemma TerminatedFront(field: string, rest: seq<string>)
    ensures Terminated([field] + rest) == field + "\r\n" + Terminated(rest)
  {
    assert ([field] + rest)[1..] == rest;
  }

  /** The lines of a session in front of its media, letter by letter. */
  lemma SessionOnWire(s: Session)
    requires s.connection.Some? && s.bandwidth.Some? && s.start.Some? && s.end.Some?
    ensures Serialize(s) ==
      "v=0" + "\r\n" + (
      ['o'] + "=" + s.origin + "\r\n" + (
      ['s'] + "=" + s.name + "\r\n" + (
      ['c'] + "=" + s.connection.value + "\r\n" + (
      ['b'] + "=" + s.bandwidth.value + "\r\n" + (
      ['t'] + "=" + (Decimal(s.start.value) + " " + Decimal(s.end.value)) + "\r\n" + (
      Terminated(MediaFields(s.media))))))))
  {
    var f6 := [TimingField(s)] + MediaFields(s.media);
    var f5 := [Field('b', s.bandwidth.value)] + f6;
    var f4 := [Field('c', s.connection.value)] + f5;
    var f3 := [Field('s', s.name)] + f4;
    var f2 := [Field('o', s.origin)] + f3;
    assert Fields(s) == ["v=0"] + f2;
    TerminatedFront("v=0", f2);
    TerminatedFront(Field('o', s.origin), f3);
    TerminatedFront(Field('s', s.name), f4);
    TerminatedFront(Field('c', s.connection.value), f5);
    TerminatedFront(Field('b', s.bandwidth.value), f6);
    TerminatedFront(TimingField(s), MediaFields(s.media));
    hide Terminated, Fields, MediaFields, Decimal;
  }

  /** The line of a media and those of its attributes. */
  lemma MediaOnWire(m: Media, a: Attribute, rest: seq<Attribute>)
    ensures MediaFields([m.(attributes := [a] + rest)])
      == [ ['m'] + "=" + (m.mediaType + " " + (Decimal(m.port) + " " + (m.proto + " " + Numbers(m.payloadTypes)))),
           ['a'] + "=" + (if a.1 == "" then a.0 else a.0 + ":" + a.1) ] + AttributeFields(rest)
  {
    var media := m.(attributes := [a] + rest);
    assert [media][1..] == [] && ([a] + rest)[1..] == rest;
    hide Decimal, Numbers;
  }

  /**
   * What a line sets, wherever it stands: a later origin, name, connection or bandwidth replaces the one before it,
   * even behind a media line; an attribute belongs to the last media and is dropped in front of all.
   */
  lemma LinesSetFields(st: Session, value: string)
    requires EndsPlain(value)
    ensures ReadLine(st, "o=" + value) == st.(origin := value) && ReadLine(st, "s=" + value) == st.(name := value)
    ensures ReadLine(st, "c=" + value) == st.(connection := Some(value))
    ensures ReadLine(st, "b=" + value) == st.(bandwidth := Some(value))
    ensures st.media == [] ==> ReadLine(st, "a=" + value) == st
  {
    hide ReadLine, AttributeOf;
    FieldIsRead(st, 'o', value);
    FieldIsRead(st, 's', value);
    FieldIsRead(st, 'c', value);
    FieldIsRead(st, 'b', value);
    FieldIsRead(st, 'a', value);
    assert "o=" + value == Field('o', value) && "s=" + value == Field('s', value);
    assert "c=" + value == Field('c', value) && "b=" + value == Field('b', value);
    assert "a=" + value == Field('a', value);
  }

  /** A line of any other kind says nothing. */
  lemma OtherKindsSayNothing(st: Session, kind: char, value: string)
    requires !IsSpace(kind) && kind !in "oscbymat"
    ensures ReadLine(st, [kind] + "=" + value) == st
  {
    FieldIsTrimmed(st, kind, value);
    hide ReadLine, TrimEnd;
    var kinds := "oscbymat";
    assert kinds[0] == 'o' && kinds[1] == 's' && kinds[2] == 'c' && kinds[3] == 'b' && kinds[4] == 'y';
    assert kinds[5] == 'm' && kinds[6] == 'a' && kinds[7] == 't';
  }

  /** Lines without an equals sign in second place say nothing. */
  lemma OtherLinesSayNothing(st: Session, line: string)
    requires Trimmed(line) && (|line| < 2 || line[1] != '=')
    ensures ReadLine(st, line) == st
  {
    TrimTrimmed(line);
    hide Trim;
  }
}
