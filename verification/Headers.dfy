/** The GB 35114 authentication headers: printing, the tolerant parameter parser, and what survives the trip. */
module Headers {
  import opened Results
  import opened Text

  const CAPABILITY_ALGORITHM := "A:SM2;H:SM3;S:SM4/OFB/PKCS5;SI:SM3-SM2"
  const CHALLENGE_ALGORITHM := "A:SM2;H:SM3"

  datatype Mode = Unidirection | Bidirection

  datatype Challenge = Challenge(mode: Mode, algorithm: string, random1: string)

  datatype Authorization = Authorization(
    mode: Mode, random1: string, random2: string, serverId: string, deviceId: string, sign1: string,
    algorithm: string)

  datatype SecurityInfo = SecurityInfo(
    mode: Mode, algorithm: string, random1: string, random2: string, deviceId: string, serverId: string,
    cryptKey: string, sign2: string)

  /** A parser either reads its fields, refuses, or indexes past the end of the header. */
  datatype Parsing<T> = Good(fields: T) | Refused | OutOfRange

  type Params = seq<(string, string)>

  // --- Parameter lists ---

  predicate IsKeyChar(c: char) {
    'a' <= c <= 'z' || 'A' <= c <= 'Z' || IsDigit(c) || c == '_'
  }

  predicate IsSeparator(c: char) {
    c == ',' || c == ' '
  }

  predicate NotSeparator(c: char) {
    !IsSeparator(c)
  }

  /** How many leading characters satisfy p. */
  function RunLength(s: string, p: char -> bool): (n: nat)
    ensures n <= |s|
    ensures forall i :: 0 <= i < n ==> p(s[i])
    ensures n < |s| ==> !p(s[n])
  {
    if s != "" && p(s[0]) then 1 + RunLength(s[1..], p) else 0
  }

  lemma RunLengthIs(s: string, p: char -> bool, n: nat)
    requires n <= |s| && (forall i :: 0 <= i < n ==> p(s[i])) && (n < |s| ==> !p(s[n]))
    ensures RunLength(s, p) == n
  {
  }

  /** The value at the front of v, quoted or bare, and what follows it. */
  function Value(v: string): (r: (string, string))
    ensures |r.1| <= |v|
  {
    if v != "" && v[0] == '"' then
      var q := 1 + IndexOf(v[1..], '"');
      (v[1..q], if q < |v| then v[q + 1..] else "")
    else
      var b := RunLength(v, NotSeparator);
      (v[..b], v[b..])
  }

  /** None when a key runs into the end of the header: the loop then reads one byte too many. */
  function ParamsOf(s: string): Option<Params>
    decreases |s|
  {
    var t := s[RunLength(s, IsSeparator)..];
    if t == "" then Some([])
    else
      var k := RunLength(t, IsKeyChar);
      if k == |t| then None
      else if k == 0 || t[k] != '=' then Some([])
      else
        var (value, rest) := Value(t[k + 1..]);
        match ParamsOf(rest)
        case None => None
        case Some(more) => Some([(Lower(t[..k]), value)] + more)
  }

  function Prepend(front: Params, rest: Option<Params>): Option<Params> {
    match rest
    case None => None
    case Some(more) => Some(front + more)
  }

  lemma PrependTwice(a: Params, b: Params, rest: Option<Params>)
    ensures Prepend(a, Prepend(b, rest)) == Prepend(a + b, rest)
  {
    if rest.Some? {
      assert a + (b + rest.value) == a + b + rest.value;
    }
  }

  lemma PrependEnds(front: Params, rest: Option<Params>)
    ensures Prepend([], rest) == rest
    ensures Prepend(front, Some([])) == Some(front)
    ensures Prepend(front, None) == None
  {
    assert front + [] == front;
    if rest.Some? {
      assert [] + rest.value == rest.value;
    }
  }

  /** Each inner loop of the source moves the index over a run of bytes. */
  method SkipRun(s: string, from: nat, p: char -> bool) returns (i: nat)
    requires from <= |s|
    ensures i == from + RunLength(s[from..], p)
  {
    i := from;
    while i < |s| && p(s[i])
      invariant from <= i <= |s|
      invariant forall k :: from <= k < i ==> p(s[k])
    {
      i := i + 1;
    }
    RunLengthIs(s[from..], p, i - from);
  }

  predicate NotQuote(c: char) {
    c != '"'
  }

  lemma RunLengthIsIndex(s: string)
    ensures RunLength(s, NotQuote) == IndexOf(s, '"')
  {
    var i := IndexOf(s, '"');
    forall k | 0 <= k < i ensures NotQuote(s[k]) {
      assert s[k] == s[..i][k];
    }
    RunLengthIs(s, NotQuote, i);
  }

  method ParseValue(s: string, from: nat) returns (value: string, i: nat)
    requires from <= |s|
    ensures from <= i <= |s|
    ensures value == Value(s[from..]).0 && s[i..] == Value(s[from..]).1
  {
    hide RunLength, IndexOf, NotSeparator, NotQuote, Value;
    if from < |s| && s[from] == '"' {
      var start := from + 1;
      RunLengthIsIndex(s[start..]);
      i := SkipRun(s, start, NotQuote);
      value := s[start..i];
      ValueInQuotes(s, from, i);
      if i < |s| {
        i := i + 1;
      }
    } else {
      i := SkipRun(s, from, NotSeparator);
      value := s[from..i];
      ValueBare(s, from, i);
    }
  }

  lemma ValueInQuotes(s: string, from: nat, i: nat)
    requires from < |s| && s[from] == '"' && i == from + 1 + IndexOf(s[from + 1..], '"')
    ensures i <= |s| && Value(s[from..]) == (s[from + 1..i], if i < |s| then s[i + 1..] else s[i..])
  {
    hide IndexOf;
    var v := s[from..];
    assert v[1..] == s[from + 1..];
    assert v[1..i - from] == s[from + 1..i];
    if i < |s| {
      assert v[i - from + 1..] == s[i + 1..];
    } else {
      assert s[i..] == "";
    }
  }

  lemma ValueBare(s: string, from: nat, i: nat)
    requires from <= |s| && (from < |s| ==> s[from] != '"') && i == from + RunLength(s[from..], NotSeparator)
    ensures i <= |s| && Value(s[from..]) == (s[from..i], s[i..])
  {
    hide RunLength, NotSeparator;
    var v := s[from..];
    assert v[..i - from] == s[from..i] && v[i - from..] == s[i..];
  }

  /** The index loop of the source. */
  method ParseParams(s: string) returns (params: Option<Params>)
    ensures params == ParamsOf(s)
  {
    hide RunLength, Value, Lower, IsSeparator, IsKeyChar, ParamsOf, Prepend;
    var read: Params := [];
    var i := 0;
    assert s[0..] == s;
    PrependEnds(read, ParamsOf(s));
    while i < |s|
      invariant 0 <= i <= |s|
      invariant ParamsOf(s) == Prepend(read, ParamsOf(s[i..]))
    {
      ghost var from := i;
      ParamsFront(s[i..]);
      i := SkipRun(s, i, IsSeparator);
      ghost var t := s[i..];
      assert s[from..][i - from..] == t;
      PrependEnds(read, ParamsOf(s));
      if i >= |s| {
        return Some(read);
      }
      var keyStart := i;
      i := SkipRun(s, i, IsKeyChar);
      if i == |s| {
        return None;
      }
      if i == keyStart || s[i] != '=' {
        return Some(read);
      }
      var key := Lower(s[keyStart..i]);
      assert t[..i - keyStart] == s[keyStart..i];
      assert t[i - keyStart + 1..] == s[i + 1..];
      var value;
      value, i := ParseValue(s, i + 1);
      assert ParamsOf(s[from..]) == Prepend([(key, value)], ParamsOf(s[i..]));
      PrependTwice(read, [(key, value)], ParamsOf(s[i..]));
      read := read + [(key, value)];
    }
    ParamsFront(s[i..]);
    PrependEnds(read, ParamsOf(s));
    params := Some(read);
  }

  lemma ParamsFront(s: string)
    ensures var t := s[RunLength(s, IsSeparator)..];
      && (t == "" ==> ParamsOf(s) == Some([]))
      && (t != "" ==>
        var k := RunLength(t, IsKeyChar);
        && (k == |t| ==> ParamsOf(s) == None)
        && (k < |t| && (k == 0 || t[k] != '=') ==> ParamsOf(s) == Some([]))
        && (0 < k < |t| && t[k] == '=' ==>
          var v := Value(t[k + 1..]);
          ParamsOf(s) == Prepend([(Lower(t[..k]), v.0)], ParamsOf(v.1))))
  {
  }

  /** The first value under a key, or the empty string. */
  function Param(params: Params, key: string): string {
    if params == [] then ""
    else if params[0].0 == key then params[0].1
    else Param(params[1..], key)
  }

  // --- Printing parameter lists ---

  function Field(key: string, value: string): string {
    key + "=\"" + value + "\""
  }

  function Listed(fields: Params, sep: string): string {
    if fields == [] then ""
    else if |fields| == 1 then Field(fields[0].0, fields[0].1)
    else Field(fields[0].0, fields[0].1) + sep + Listed(fields[1..], sep)
  }

  predicate Unquoted(s: string) {
    '"' !in s
  }

  lemma AlgorithmIsUnquoted()
    ensures Unquoted(CAPABILITY_ALGORITHM)
  {
  }

  /** A value the parsers accept: present, and closed by the first quote behind it. */
  predicate IsWord(s: string) {
    s != "" && Unquoted(s)
  }

  predicate IsKey(k: string) {
    k != "" && (forall i :: 0 <= i < |k| ==> IsKeyChar(k[i]) && LowerChar(k[i]) == k[i])
  }

  predicate KeysAreDistinct(fields: Params) {
    && (forall i :: 0 <= i < |fields| ==> IsKey(fields[i].0))
    && (forall i, j :: 0 <= i < j < |fields| ==> fields[i].0 != fields[j].0)
  }

  predicate AllUnquoted(fields: Params) {
    forall i :: 0 <= i < |fields| ==> Unquoted(fields[i].1)
  }

  predicate Separates(sep: string) {
    forall i :: 0 <= i < |sep| ==> IsSeparator(sep[i])
  }

  lemma SeparatorsAreSkipped(sep: string, s: string)
    requires Separates(sep)
    ensures ParamsOf(sep + s) == ParamsOf(s)
  {
    hide IsKeyChar, Value, Lower;
    var n := RunLength(s, IsSeparator);
    RunLengthIs(sep + s, IsSeparator, |sep| + n);
    assert (sep + s)[|sep| + n..] == s[n..];
  }

  /** A key runs up to the equals sign. */
  lemma KeyIsCut(key: string, t: string)
    requires key != "" && forall i :: 0 <= i < |key| ==> IsKeyChar(key[i])
    ensures ParamsOf(key + "=" + t) == Prepend([(Lower(key), Value(t).0)], ParamsOf(Value(t).1))
  {
    hide RunLength, Value, ParamsOf, Lower;
    var s := key + "=" + t;
    assert IsKeyChar(key[0]);
    RunLengthIs(s, IsSeparator, 0);
    assert s[0..] == s;
    RunLengthIs(s, IsKeyChar, |key|);
    assert s[..|key|] == key && s[|key| + 1..] == t;
    ParamsFront(s);
  }

  lemma QuotedIsRead(u: string, q: nat)
    requires q == IndexOf(u, '"') && q < |u|
    ensures Value("\"" + u).0 == u[..q]
    ensures Value("\"" + u).1 == u[q + 1..]
  {
    hide IndexOf;
    var v := "\"" + u;
    assert v[1..] == u;
    assert v[1..q + 1] == u[..q];
    assert v[q + 2..] == u[q + 1..];
  }

  lemma KeyIsLower(key: string)
    requires IsKey(key)
    ensures Lower(key) == key
  {
  }

  /** The parser stops a printed field at the first quote of what follows the opening one. */
  lemma FieldIsRead(key: string, value: string, after: string, q: nat)
    requires IsKey(key) && q == IndexOf(value + "\"" + after, '"') && q < |value + "\"" + after|
    ensures
      var u := value + "\"" + after;
      ParamsOf(Field(key, value) + after) == Prepend([(key, u[..q])], ParamsOf(u[q + 1..]))
  {
    var u := value + "\"" + after;
    KeyIsLower(key);
    QuotedIsRead(u, q);
    FieldLayout(key, value, after);
    assert forall i :: 0 <= i < |key| ==> IsKeyChar(key[i]);
    hide IndexOf, Value, ParamsOf, Lower, Field, IsKey, IsKeyChar;
    KeyIsCut(key, "\"" + u);
  }

  lemma FieldLayout(key: string, value: string, after: string)
    ensures Field(key, value) + after == key + "=" + ("\"" + (value + "\"" + after))
  {
    assert "=\"" == "=" + "\"";
  }

  lemma FieldIsReadWhole(key: string, value: string, after: string)
    requires IsKey(key) && Unquoted(value)
    ensures ParamsOf(Field(key, value) + after) == Prepend([(key, value)], ParamsOf(after))
  {
    hide Field, ParamsOf;
    var u := value + "\"" + after;
    assert u == value + ['"'] + after;
    IndexAfterPrefix(value, '"', after);
    FieldIsRead(key, value, after, |value|);
    assert u[..|value|] == value && u[|value| + 1..] == after;
  }

  lemma FieldIsCut(key: string, value: string, after: string) returns (cut: string, rest: string)
    requires IsKey(key) && !Unquoted(value)
    ensures |cut| < |value|
    ensures ParamsOf(Field(key, value) + after) == Prepend([(key, cut)], ParamsOf(rest))
  {
    hide Field, ParamsOf, IndexOf;
    var u := value + "\"" + after;
    var q := IndexOf(value, '"');
    assert q < |value| by {
      assert value[..|value|] == value;
    }
    forall i | 0 <= i < q ensures u[i] != '"' {
      assert value[..q][i] == u[i];
    }
    IndexIs(u, '"', q);
    FieldIsRead(key, value, after, q);
    cut, rest := u[..q], u[q + 1..];
  }

  /** What follows the first field of a printed list. */
  function Tail(fields: Params, sep: string): string
    requires fields != []
  {
    if |fields| == 1 then "" else sep + Listed(fields[1..], sep)
  }

  lemma TailParses(fields: Params, sep: string)
    requires fields != [] && Separates(sep)
    ensures Listed(fields, sep) == Field(fields[0].0, fields[0].1) + Tail(fields, sep)
    ensures ParamsOf(Tail(fields, sep)) == ParamsOf(Listed(fields[1..], sep))
  {
    hide ParamsOf, Field;
    if |fields| > 1 {
      SeparatorsAreSkipped(sep, Listed(fields[1..], sep));
      var field := Field(fields[0].0, fields[0].1);
      assert field + sep + Listed(fields[1..], sep) == field + (sep + Listed(fields[1..], sep));
    }
  }

  lemma FirstIsRead(fields: Params, sep: string)
    requires fields != [] && IsKey(fields[0].0) && Unquoted(fields[0].1) && Separates(sep)
    ensures ParamsOf(Listed(fields, sep)) == Prepend([fields[0]], ParamsOf(Listed(fields[1..], sep)))
  {
    hide ParamsOf, Field, Tail, IsKey, Unquoted, Separates;
    TailParses(fields, sep);
    hide Listed;
    FieldIsReadWhole(fields[0].0, fields[0].1, Tail(fields, sep));
  }

  /** Printed values without quotes come back as they went in. */
  lemma {:induction false} ListedParses(fields: Params, sep: string)
    requires KeysAreDistinct(fields) && AllUnquoted(fields) && Separates(sep)
    ensures ParamsOf(Listed(fields, sep)) == Some(fields)
  {
    if fields != [] {
      assert KeysAreDistinct(fields[1..]) && AllUnquoted(fields[1..]);
      FirstIsRead(fields, sep);
      hide ParamsOf, Listed, KeysAreDistinct, AllUnquoted, Separates;
      ListedParses(fields[1..], sep);
      assert [fields[0]] + fields[1..] == fields;
    } else {
      assert ParamsOf("") == Some([]);
    }
  }

  lemma ParamAppend(a: Params, b: Params, key: string)
    requires forall i :: 0 <= i < |a| ==> a[i].0 != key
    ensures Param(a + b, key) == Param(b, key)
  {
    if a != [] {
      assert (a + b)[1..] == a[1..] + b;
      ParamAppend(a[1..], b, key);
    } else {
      assert a + b == b;
    }
  }

  /** A value with a quote in it comes back shortened, or the parser runs off the end. */
  lemma {:induction false} QuoteShortens(fields: Params, sep: string) returns (j: nat)
    requires KeysAreDistinct(fields) && !AllUnquoted(fields) && Separates(sep)
    ensures j < |fields|
    ensures match ParamsOf(Listed(fields, sep))
      case None => true
      case Some(p) => Param(p, fields[j].0) != fields[j].1
  {
    hide ParamsOf, Field, Tail;
    var (key, value) := fields[0];
    if Unquoted(value) {
      FirstIsRead(fields, sep);
      var k := QuoteShortens(fields[1..], sep);
      j := k + 1;
      match ParamsOf(Listed(fields[1..], sep))
      case None =>
      case Some(p) => ParamAppend([(key, value)], p, fields[j].0);
    } else {
      TailParses(fields, sep);
      var cut, rest := FieldIsCut(key, value, Tail(fields, sep));
      j := 0;
    }
  }

  /** The values at the keys of a printed list, read back. */
  predicate ReadsBack(fields: Params, params: Option<Params>) {
    params.Some? && forall i :: 0 <= i < |fields| ==> Param(params.value, fields[i].0) == fields[i].1
  }

  lemma {:induction false} ParamFinds(fields: Params, i: nat)
    requires i < |fields| && KeysAreDistinct(fields)
    ensures Param(fields, fields[i].0) == fields[i].1
  {
    if i > 0 {
      ParamFinds(fields[1..], i - 1);
    }
  }

  /** A printed list reads back exactly when no value holds a quote. */
  lemma ListReadsBack(fields: Params, sep: string)
    requires KeysAreDistinct(fields) && Separates(sep)
    ensures ReadsBack(fields, ParamsOf(Listed(fields, sep))) <==> AllUnquoted(fields)
    ensures AllUnquoted(fields) ==> ParamsOf(Listed(fields, sep)) == Some(fields)
  {
    if AllUnquoted(fields) {
      ListedParses(fields, sep);
      forall i | 0 <= i < |fields| ensures Param(fields, fields[i].0) == fields[i].1 {
        ParamFinds(fields, i);
      }
    } else {
      var j := QuoteShortens(fields, sep);
    }
  }

  /** A bare value, and a key in any case, read like the quoted value under the lower-case key. */
  lemma BareReadsLikeQuoted(key: string, value: string, after: string)
    requires key != "" && forall i :: 0 <= i < |key| ==> IsKeyChar(key[i])
    requires Unquoted(value) && forall i :: 0 <= i < |value| ==> !IsSeparator(value[i])
    requires after == "" || IsSeparator(after[0])
    ensures ParamsOf(key + "=" + value + after) == ParamsOf(Field(Lower(key), value) + after)
  {
    LoweredIsKey(key);
    FieldIsReadWhole(Lower(key), value, after);
    BareFieldIsRead(key, value, after);
    hide ParamsOf, Lower, Field;
  }

  lemma LoweredIsKey(key: string)
    requires key != "" && forall i :: 0 <= i < |key| ==> IsKeyChar(key[i])
    ensures IsKey(Lower(key))
  {
  }

  lemma BareFieldIsRead(key: string, value: string, after: string)
    requires key != "" && forall i :: 0 <= i < |key| ==> IsKeyChar(key[i])
    requires Unquoted(value) && forall i :: 0 <= i < |value| ==> !IsSeparator(value[i])
    requires after == "" || IsSeparator(after[0])
    ensures ParamsOf(key + "=" + value + after) == Prepend([(Lower(key), value)], ParamsOf(after))
  {
    BareIsRead(value, after);
    hide Value, ParamsOf, Lower;
    KeyIsCut(key, value + after);
    assert key + "=" + value + after == key + "=" + (value + after);
  }

  lemma BareIsRead(value: string, after: string)
    requires Unquoted(value) && forall i :: 0 <= i < |value| ==> !IsSeparator(value[i])
    requires after == "" || IsSeparator(after[0])
    ensures Value(value + after).0 == value && Value(value + after).1 == after
  {
    var t := value + after;
    RunLengthIs(t, NotSeparator, |value|);
    assert t[..|value|] == value && t[|value|..] == after;
    assert t != "" ==> t[0] != '"' by {
      assert value != "" ==> value[0] in value;
    }
  }

  // --- Scheme and mode ---

  function ModeName(mode: Mode): (s: string)
    ensures s != "" && IsKeyChar(s[0]) && ' ' !in s
  {
    match mode
    case Unidirection => "Unidirection"
    case Bidirection => "Bidirection"
  }

  function SplitScheme(header: string): (string, string) {
    var h := Trim(header);
    var i := IndexOf(h, ' ');
    if i < |h| then (h[..i], Trim(h[i + 1..])) else (h, "")
  }

  function ParseMode(scheme: string): Option<Mode> {
    if scheme == "Unidirection" then Some(Unidirection)
    else if scheme == "Bidirection" then Some(Bidirection)
    else None
  }

  function Opened(header: string): Parsing<(Mode, Params)> {
    var (scheme, rest) := SplitScheme(header);
    match ParseMode(scheme)
    case None => Refused
    case Some(mode) =>
      match ParamsOf(rest)
      case None => OutOfRange
      case Some(p) => Good((mode, p))
  }

  function Headed(mode: Mode, fields: Params, sep: string): string {
    ModeName(mode) + " " + Listed(fields, sep)
  }

  lemma {:induction false} ListedEnds(fields: Params, sep: string)
    requires fields != []
    ensures var l := Listed(fields, sep); |l| > 0 && l[|l| - 1] == '"'
  {
    if |fields| > 1 {
      ListedEnds(fields[1..], sep);
    }
  }

  lemma SchemeSplits(word: string, rest: string)
    requires word != "" && !IsSpace(word[0]) && ' ' !in word
    requires rest != "" && Trimmed(rest)
    ensures SplitScheme(word + " " + rest) == (word, rest)
  {
    var h := word + " " + rest;
    assert h == word + [' '] + rest;
    assert h[0] == word[0] && h[|h| - 1] == rest[|rest| - 1];
    TrimTrimmed(h);
    TrimTrimmed(rest);
    IndexAfterPrefix(word, ' ', rest);
    hide Trim, IndexOf, IsSpace;
    assert h[..|word|] == word && h[|word| + 1..] == rest;
  }

  lemma HeaderOpens(mode: Mode, fields: Params, sep: string)
    requires fields != [] && KeysAreDistinct(fields)
    ensures Opened(Headed(mode, fields, sep)) ==
      match ParamsOf(Listed(fields, sep))
      case None => OutOfRange
      case Some(p) => Good((mode, p))
  {
    var l := Listed(fields, sep);
    ListedEnds(fields, sep);
    assert IsKeyChar(fields[0].0[0]) && l[0] == fields[0].0[0];
    assert Trimmed(l);
    hide ParamsOf, Listed, SplitScheme, KeysAreDistinct;
    SchemeSplits(ModeName(mode), l);
  }

  // --- The challenge ---

  function BuildChallenge(mode: Mode, random1: string): string {
    Headed(mode, [("algorithm", CHALLENGE_ALGORITHM), ("random1", random1)], ", ")
  }

  function ParseChallenge(header: string): Parsing<Challenge> {
    match Opened(header)
    case Refused => Refused
    case OutOfRange => OutOfRange
    case Good((mode, p)) =>
      if Param(p, "random1") == "" then Refused
      else Good(Challenge(mode, Param(p, "algorithm"), Param(p, "random1")))
  }

  /** A challenge survives exactly when its random is non-empty and free of quotes. */
  lemma ChallengeRoundTrip(mode: Mode, random1: string)
    ensures
      ParseChallenge(BuildChallenge(mode, random1)) == Good(Challenge(mode, CHALLENGE_ALGORITHM, random1))
      <==> IsWord(random1)
  {
    hide ParamsOf, Listed;
    var fields := [("algorithm", CHALLENGE_ALGORITHM), ("random1", random1)];
    HeaderOpens(mode, fields, ", ");
    ListReadsBack(fields, ", ");
    assert fields[0].1 == CHALLENGE_ALGORITHM && fields[1].1 == random1;
  }

  // --- The Authorization of the authenticated REGISTER ---

  function AuthorizationFields(
    mode: Mode, random1: string, random2: string, serverId: string, deviceId: string, sign1: string): Params
  {
    [("random1", random1), ("random2", random2), ("serverid", serverId)]
    + (if mode == Bidirection then [("deviceid", deviceId)] else [])
    + [("sign1", sign1), ("algorithm", CAPABILITY_ALGORITHM)]
  }

  function BuildAuthorization(
    ch: Challenge, random2: string, serverId: string, deviceId: string, sign1: string): string
  {
    Headed(ch.mode, AuthorizationFields(ch.mode, ch.random1, random2, serverId, deviceId, sign1), ", ")
  }

  function ParseAuthorization(header: string): Parsing<Authorization> {
    match Opened(header)
    case Refused => Refused
    case OutOfRange => OutOfRange
    case Good((mode, p)) => AuthorizationFrom(mode, p)
  }

  function AuthorizationFrom(mode: Mode, p: Params): Parsing<Authorization> {
    var a := Authorization(mode, Param(p, "random1"), Param(p, "random2"), Param(p, "serverid"),
                           Param(p, "deviceid"), Param(p, "sign1"), Param(p, "algorithm"));
    if a.random1 == "" || a.random2 == "" || a.serverId == "" || a.sign1 == "" then Refused
    else if mode == Bidirection && a.deviceId == "" then Refused
    else Good(a)
  }

  /** The fields a device's Authorization is to carry. */
  function Authorized(
    ch: Challenge, random2: string, serverId: string, deviceId: string, sign1: string): Authorization
  {
    Authorization(ch.mode, ch.random1, random2, serverId, if ch.mode == Bidirection then deviceId else "", sign1,
                  CAPABILITY_ALGORITHM)
  }

  lemma KnownKeys()
    ensures IsKey("algorithm") && IsKey("random1") && IsKey("random2") && IsKey("serverid") && IsKey("deviceid")
    ensures IsKey("sign1") && IsKey("sign2") && IsKey("cryptkey")
  {
  }

  lemma AuthorizationKeys(
    mode: Mode, random1: string, random2: string, serverId: string, deviceId: string, sign1: string)
    ensures KeysAreDistinct(AuthorizationFields(mode, random1, random2, serverId, deviceId, sign1))
  {
    KnownKeys();
    hide IsKey;
    var fields := AuthorizationFields(mode, random1, random2, serverId, deviceId, sign1);
    assert fields[0].0[6] == '1' && fields[1].0[6] == '2' && fields[2].0[0] == 's';
    if mode == Bidirection {
      assert fields[3].0[0] == 'd';
    }
  }

  /** The fields one by one, and what it takes to read them all back. */
  lemma AuthorizationFieldByField(
    mode: Mode, random1: string, random2: string, serverId: string, deviceId: string, sign1: string,
    params: Option<Params>)
    ensures
      var fields := AuthorizationFields(mode, random1, random2, serverId, deviceId, sign1);
      && (AllUnquoted(fields) <==>
          && Unquoted(random1) && Unquoted(random2) && Unquoted(serverId) && Unquoted(sign1)
          && (mode == Bidirection ==> Unquoted(deviceId)))
      && (ReadsBack(fields, params) <==>
          && params.Some?
          && var p := params.value;
            && Param(p, "random1") == random1 && Param(p, "random2") == random2
            && Param(p, "serverid") == serverId && Param(p, "sign1") == sign1
            && Param(p, "algorithm") == CAPABILITY_ALGORITHM
            && (mode == Bidirection ==> Param(p, "deviceid") == deviceId))
      && (mode == Unidirection ==> Param(fields, "deviceid") == "")
  {
    hide Param;
    var fields := AuthorizationFields(mode, random1, random2, serverId, deviceId, sign1);
    var n := |fields|;
    assert fields[0] == ("random1", random1) && fields[1] == ("random2", random2);
    assert fields[2] == ("serverid", serverId);
    assert fields[n - 2] == ("sign1", sign1) && fields[n - 1] == ("algorithm", CAPABILITY_ALGORITHM);
    if mode == Bidirection {
      assert fields[3] == ("deviceid", deviceId);
    } else {
      ParamAppend(fields, [], "deviceid");
      assert fields + [] == fields;
      assert Param([], "deviceid") == "" by { EmptyParam("deviceid"); }
    }
  }

  lemma EmptyParam(key: string)
    ensures Param([], key) == ""
  {
  }

  lemma AuthorizationRoundTrip(ch: Challenge, random2: string, serverId: string, deviceId: string, sign1: string)
    ensures
      ParseAuthorization(BuildAuthorization(ch, random2, serverId, deviceId, sign1))
        == Good(Authorized(ch, random2, serverId, deviceId, sign1))
      <==>
      && IsWord(ch.random1) && IsWord(random2) && IsWord(serverId) && IsWord(sign1)
      && (ch.mode == Bidirection ==> IsWord(deviceId))
  {
    var fields := AuthorizationFields(ch.mode, ch.random1, random2, serverId, deviceId, sign1);
    assert fields != [];
    hide ParamsOf, Listed, AuthorizationFields, ReadsBack, KeysAreDistinct, AllUnquoted, Param, Opened, Headed;
    var params := ParamsOf(Listed(fields, ", "));
    AuthorizationKeys(ch.mode, ch.random1, random2, serverId, deviceId, sign1);
    AuthorizationFieldByField(ch.mode, ch.random1, random2, serverId, deviceId, sign1, params);
    ListReadsBack(fields, ", ");
    assert ParseAuthorization(BuildAuthorization(ch, random2, serverId, deviceId, sign1)) ==
      (if params.None? then OutOfRange else AuthorizationFrom(ch.mode, params.value)) by
    {
      HeaderOpens(ch.mode, fields, ", ");
    }
  }

  // --- The SecurityInfo of the 200 OK ---

  function SecurityInfoFields(si: SecurityInfo): Params {
    match si.mode
    case Unidirection => [("cryptkey", si.cryptKey), ("algorithm", si.algorithm)]
    case Bidirection =>
      [("algorithm", si.algorithm), ("random1", si.random1), ("random2", si.random2), ("deviceid", si.deviceId),
       ("serverid", si.serverId), ("cryptkey", si.cryptKey), ("sign2", si.sign2)]
  }

  function BuildSecurityInfo(si: SecurityInfo): string {
    Headed(si.mode, SecurityInfoFields(si), if si.mode == Unidirection then ", " else ",")
  }

  function ParseSecurityInfo(header: string): Parsing<SecurityInfo> {
    match Opened(header)
    case Refused => Refused
    case OutOfRange => OutOfRange
    case Good((mode, p)) => SecurityInfoFrom(mode, p)
  }

  function SecurityInfoFrom(mode: Mode, p: Params): Parsing<SecurityInfo> {
    var si := SecurityInfo(mode, Param(p, "algorithm"), Param(p, "random1"), Param(p, "random2"),
                           Param(p, "deviceid"), Param(p, "serverid"), Param(p, "cryptkey"), Param(p, "sign2"));
    if si.cryptKey == "" then Refused
    else if mode == Bidirection
      && (si.random1 == "" || si.random2 == "" || si.deviceId == "" || si.serverId == "" || si.sign2 == "")
    then Refused
    else Good(si)
  }

  predicate Printable(si: SecurityInfo) {
    && Unquoted(si.algorithm) && IsWord(si.cryptKey)
    && match si.mode
       case Unidirection => si.random1 == si.random2 == si.deviceId == si.serverId == si.sign2 == ""
       case Bidirection =>
         IsWord(si.random1) && IsWord(si.random2) && IsWord(si.deviceId) && IsWord(si.serverId) && IsWord(si.sign2)
  }

  lemma SecurityInfoKeys(si: SecurityInfo)
    ensures KeysAreDistinct(SecurityInfoFields(si))
  {
    KnownKeys();
    hide IsKey;
    var fields := SecurityInfoFields(si);
    if si.mode == Bidirection {
      assert fields[1].0[6] == '1' && fields[2].0[6] == '2' && fields[3].0[0] == 'd' && fields[4].0[0] == 's';
      assert fields[5].0[0] == 'c';
    }
  }

  lemma SecurityInfoFieldByField(si: SecurityInfo, params: Option<Params>)
    ensures
      var fields := SecurityInfoFields(si);
      && (AllUnquoted(fields) <==>
          && Unquoted(si.algorithm) && Unquoted(si.cryptKey)
          && (si.mode == Bidirection ==>
              && Unquoted(si.random1) && Unquoted(si.random2) && Unquoted(si.deviceId) && Unquoted(si.serverId)
              && Unquoted(si.sign2)))
      && (ReadsBack(fields, params) <==>
          && params.Some?
          && var p := params.value;
            && Param(p, "algorithm") == si.algorithm && Param(p, "cryptkey") == si.cryptKey
            && (si.mode == Bidirection ==>
                && Param(p, "random1") == si.random1 && Param(p, "random2") == si.random2
                && Param(p, "deviceid") == si.deviceId && Param(p, "serverid") == si.serverId
                && Param(p, "sign2") == si.sign2))
  {
    hide Param;
    var fields := SecurityInfoFields(si);
    match si.mode
    case Unidirection =>
      assert fields[0] == ("cryptkey", si.cryptKey) && fields[1] == ("algorithm", si.algorithm);
    case Bidirection =>
      assert fields[0] == ("algorithm", si.algorithm) && fields[1] == ("random1", si.random1);
      assert fields[2] == ("random2", si.random2) && fields[3] == ("deviceid", si.deviceId);
      assert fields[4] == ("serverid", si.serverId) && fields[5] == ("cryptkey", si.cryptKey);
      assert fields[6] == ("sign2", si.sign2);
  }

  lemma UnidirectionLeavesBlank(si: SecurityInfo, key: string)
    requires si.mode == Unidirection && key != "cryptkey" && key != "algorithm"
    ensures Param(SecurityInfoFields(si), key) == ""
  {
    var fields := SecurityInfoFields(si);
    ParamAppend(fields, [], key);
    assert fields + [] == fields;
  }

  lemma UnidirectionIsRead(si: SecurityInfo)
    requires si.mode == Unidirection
    ensures
      var p := SecurityInfoFields(si);
      && Param(p, "random1") == "" && Param(p, "random2") == "" && Param(p, "deviceid") == ""
      && Param(p, "serverid") == "" && Param(p, "sign2") == ""
  {
    hide SecurityInfoFields, Param;
    UnidirectionLeavesBlank(si, "random1");
    UnidirectionLeavesBlank(si, "random2");
    UnidirectionLeavesBlank(si, "deviceid");
    UnidirectionLeavesBlank(si, "serverid");
    UnidirectionLeavesBlank(si, "sign2");
  }

  function SecurityInfoText(si: SecurityInfo): string {
    Listed(SecurityInfoFields(si), if si.mode == Unidirection then ", " else ",")
  }

  lemma SecurityInfoOpens(si: SecurityInfo)
    ensures
      var params := ParamsOf(SecurityInfoText(si));
      ParseSecurityInfo(BuildSecurityInfo(si)) ==
        if params.None? then OutOfRange else SecurityInfoFrom(si.mode, params.value)
  {
    var fields := SecurityInfoFields(si);
    assert fields != [];
    SecurityInfoKeys(si);
    hide ParamsOf, Listed, SecurityInfoFields, KeysAreDistinct, Opened, Headed, SecurityInfoFrom;
    HeaderOpens(si.mode, fields, if si.mode == Unidirection then ", " else ",");
  }

  lemma SecurityInfoReadsBack(si: SecurityInfo)
    ensures
      var fields, params := SecurityInfoFields(si), ParamsOf(SecurityInfoText(si));
      && (ReadsBack(fields, params) <==> AllUnquoted(fields))
      && (AllUnquoted(fields) ==> params == Some(fields))
  {
    SecurityInfoKeys(si);
    hide ParamsOf, Listed, SecurityInfoFields, KeysAreDistinct, ReadsBack, AllUnquoted;
    ListReadsBack(SecurityInfoFields(si), if si.mode == Unidirection then ", " else ",");
  }

  lemma SecurityInfoRoundTrip(si: SecurityInfo)
    ensures ParseSecurityInfo(BuildSecurityInfo(si)) == Good(si) <==> Printable(si)
  {
    hide ParamsOf, SecurityInfoText, SecurityInfoFields, ReadsBack, AllUnquoted, Param;
    SecurityInfoOpens(si);
    hide ParseSecurityInfo, BuildSecurityInfo;
    SecurityInfoReadsBack(si);
    SecurityInfoFieldByField(si, ParamsOf(SecurityInfoText(si)));
    if si.mode == Unidirection {
      UnidirectionIsRead(si);
    }
  }

  // --- The texts on the wire ---

  lemma ListedFront(key: string, value: string, rest: Params, sep: string)
    requires rest != []
    ensures Listed([(key, value)] + rest, sep) == key + "=\"" + value + "\"" + sep + Listed(rest, sep)
    ensures Listed([(key, value)], sep) == key + "=\"" + value + "\""
  {
    assert ([(key, value)] + rest)[1..] == rest;
  }

  /** The challenge in both modes, character by character. */
  lemma ChallengeOnWire(mode: Mode, random1: string)
    ensures BuildChallenge(mode, random1) ==
      (if mode == Bidirection then "Bidirection" else "Unidirection") + " " + (
        "algorithm" + "=\"" + "A:SM2;H:SM3" + "\"" + ", " + ("random1" + "=\"" + random1 + "\""))
  {
    var last := [("random1", random1)];
    ListedFront("algorithm", CHALLENGE_ALGORITHM, last, ", ");
    ListedFront("random1", random1, last, ", ");
    hide Listed;
    assert [("algorithm", CHALLENGE_ALGORITHM)] + last
      == [("algorithm", CHALLENGE_ALGORITHM), ("random1", random1)];
  }

  /** The Authorization; only a Bidirection one names the device. */
  lemma AuthorizationOnWire(
    ch: Challenge, random2: string, serverId: string, deviceId: string, sign1: string)
    ensures BuildAuthorization(ch, random2, serverId, deviceId, sign1) ==
      (if ch.mode == Bidirection then "Bidirection" else "Unidirection") + " " + (
        "random1" + "=\"" + ch.random1 + "\"" + ", " + (
        "random2" + "=\"" + random2 + "\"" + ", " + (
        "serverid" + "=\"" + serverId + "\"" + ", " + (
          var signed := "sign1" + "=\"" + sign1 + "\"" + ", " + (
            "algorithm" + "=\"" + "A:SM2;H:SM3;S:SM4/OFB/PKCS5;SI:SM3-SM2" + "\"");
          if ch.mode == Bidirection then "deviceid" + "=\"" + deviceId + "\"" + ", " + signed else signed))))
  {
    var f6: Params := [("algorithm", CAPABILITY_ALGORITHM)];
    var f5 := [("sign1", sign1)] + f6;
    var f4 := if ch.mode == Bidirection then [("deviceid", deviceId)] + f5 else f5;
    var f3 := [("serverid", serverId)] + f4;
    var f2 := [("random2", random2)] + f3;
    ListedFront("algorithm", CAPABILITY_ALGORITHM, f6, ", ");
    ListedFront("sign1", sign1, f6, ", ");
    ListedFront("deviceid", deviceId, f5, ", ");
    ListedFront("serverid", serverId, f4, ", ");
    ListedFront("random2", random2, f3, ", ");
    ListedFront("random1", ch.random1, f2, ", ");
    assert AuthorizationFields(ch.mode, ch.random1, random2, serverId, deviceId, sign1)
      == [("random1", ch.random1)] + f2;
    hide Listed, AuthorizationFields;
  }

  /** The SecurityInfo: two fields in one mode, seven in the other, without spaces. */
  lemma SecurityInfoOnWire(si: SecurityInfo)
    ensures BuildSecurityInfo(si) ==
      if si.mode == Unidirection then
        "Unidirection" + " " + (
          "cryptkey" + "=\"" + si.cryptKey + "\"" + ", " + ("algorithm" + "=\"" + si.algorithm + "\""))
      else
        "Bidirection" + " " + (
          "algorithm" + "=\"" + si.algorithm + "\"" + "," + (
          "random1" + "=\"" + si.random1 + "\"" + "," + (
          "random2" + "=\"" + si.random2 + "\"" + "," + (
          "deviceid" + "=\"" + si.deviceId + "\"" + "," + (
          "serverid" + "=\"" + si.serverId + "\"" + "," + (
          "cryptkey" + "=\"" + si.cryptKey + "\"" + "," + ("sign2" + "=\"" + si.sign2 + "\"")))))))
  {
    if si.mode == Unidirection {
      var f2: Params := [("algorithm", si.algorithm)];
      ListedFront("algorithm", si.algorithm, f2, ", ");
      ListedFront("cryptkey", si.cryptKey, f2, ", ");
      assert SecurityInfoFields(si) == [("cryptkey", si.cryptKey)] + f2;
    } else {
      var f7: Params := [("sign2", si.sign2)];
      var f6 := [("cryptkey", si.cryptKey)] + f7;
      var f5 := [("serverid", si.serverId)] + f6;
      var f4 := [("deviceid", si.deviceId)] + f5;
      var f3 := [("random2", si.random2)] + f4;
      var f2 := [("random1", si.random1)] + f3;
      ListedFront("sign2", si.sign2, f7, ",");
      ListedFront("cryptkey", si.cryptKey, f7, ",");
      ListedFront("serverid", si.serverId, f6, ",");
      ListedFront("deviceid", si.deviceId, f5, ",");
      ListedFront("random2", si.random2, f4, ",");
      ListedFront("random1", si.random1, f3, ",");
      ListedFront("algorithm", si.algorithm, f2, ",");
      assert SecurityInfoFields(si) == [("algorithm", si.algorithm)] + f2;
    }
    hide Listed, SecurityInfoFields;
  }

  /** Spaces around a header do not matter; a first word other than the two modes is refused, whatever follows. */
  lemma OtherSchemesAreRefused(scheme: string, rest: string)
    requires scheme != "" && ' ' !in scheme && Trimmed(scheme) && scheme !in ["Unidirection", "Bidirection"]
    ensures ParseChallenge(scheme + " " + rest) == Refused && ParseAuthorization(scheme + " " + rest) == Refused
    ensures ParseSecurityInfo(scheme + " " + rest) == Refused
  {
    var h := scheme + " " + rest;
    SchemeIsFirstWord(scheme, rest);
    hide SplitScheme, ParamsOf;
  }

  lemma SchemeIsFirstWord(scheme: string, rest: string)
    requires scheme != "" && ' ' !in scheme && Trimmed(scheme)
    ensures SplitScheme(scheme + " " + rest).0 == scheme
  {
    var h := scheme + " " + rest;
    assert TrimStart(h) == h by { assert h[0] == scheme[0]; }
    TrimEndBehind(scheme, " " + rest);
    assert h == scheme + (" " + rest);
    var tail := TrimEnd(" " + rest);
    TrimEndIsPrefix(" " + rest);
    assert Trim(h) == scheme + tail;
    if tail == "" {
      assert scheme + tail == scheme;
      IndexOfAbsent(scheme, ' ');
    } else {
      assert tail[0] == ' ';
      assert scheme + tail == scheme + [' '] + tail[1..];
      IndexAfterPrefix(scheme, ' ', tail[1..]);
      assert (scheme + tail)[..|scheme|] == scheme;
    }
  }

  // --- Where the parser stops ---

  /** The first value under a key counts, whatever follows; keys compare in lower case. */
  lemma {:induction false} FirstValueCounts(front: Params, key: string, value: string, rest: Params)
    requires forall i :: 0 <= i < |front| ==> front[i].0 != key
    ensures Param(front + [(key, value)] + rest, key) == value
    ensures Param(front, key) == ""
  {
    if front == [] {
      assert front + [(key, value)] + rest == [(key, value)] + rest;
    } else {
      var later := front[1..];
      assert front + [(key, value)] + rest == [front[0]] + (later + [(key, value)] + rest);
      assert forall i :: 0 <= i < |later| ==> later[i] == front[i + 1];
      FirstValueCounts(later, key, value, rest);
    }
  }

  /**
   * A quote that is not closed takes in the rest of the header; a key without an `=` ends the list there, and at the
   * very end of the header makes the loop read one byte too many.
   */
  lemma ListBreaksOff(key: string, value: string, c: char, rest: string)
    requires IsKey(key) && Unquoted(value) && !IsKeyChar(c)
    ensures ParamsOf(key + "=\"" + value) == Some([(Lower(key), value)])
    ensures ParamsOf(key) == None
    ensures c != '=' ==> ParamsOf(key + [c] + rest) == Some([])
    ensures !IsSeparator(c) ==> ParamsOf([c] + rest) == Some([])
  {
    OpenQuote(key, value);
    KeyRunsOut(key);
    if c != '=' {
      KeyWithoutValue(key, c, rest);
    }
    if !IsSeparator(c) {
      NoKey(c, rest);
    }
  }

  lemma OpenQuote(key: string, value: string)
    requires IsKey(key) && Unquoted(value)
    ensures ParamsOf(key + "=\"" + value) == Some([(Lower(key), value)])
  {
    hide ParamsOf, Value, Lower, Prepend, Unquoted, IsKey, IsKeyChar;
    OpenQuoteLayout(key, value);
    KeyIsSpelled(key);
    KeyIsCut(key, "\"" + value);
    OpenQuoteIsRead(value);
    NothingIsRead();
    PrependEnds([(Lower(key), value)], Some([]));
  }

  lemma KeyIsSpelled(key: string)
    requires IsKey(key)
    ensures key != "" && forall i :: 0 <= i < |key| ==> IsKeyChar(key[i])
  {
  }

  lemma OpenQuoteLayout(key: string, value: string)
    ensures key + "=\"" + value == key + "=" + ("\"" + value)
  {
    assert "=\"" == "=" + "\"";
  }

  lemma NothingIsRead()
    ensures ParamsOf("") == Some([])
  {
  }

  lemma OpenQuoteIsRead(value: string)
    requires Unquoted(value)
    ensures Value("\"" + value) == (value, "")
  {
    IndexOfAbsent(value, '"');
    hide IndexOf;
    var v := "\"" + value;
    assert v[1..] == value && v[1..1 + |value|] == value;
  }

  lemma KeyRunsOut(key: string)
    requires IsKey(key)
    ensures ParamsOf(key) == None
  {
    hide ParamsOf, RunLength, Value, Lower;
    assert IsKeyChar(key[0]);
    RunLengthIs(key, IsSeparator, 0);
    assert key[0..] == key;
    RunLengthIs(key, IsKeyChar, |key|);
    ParamsFront(key);
  }

  lemma KeyWithoutValue(key: string, c: char, rest: string)
    requires IsKey(key) && !IsKeyChar(c) && c != '='
    ensures ParamsOf(key + [c] + rest) == Some([])
  {
    hide ParamsOf, RunLength, Value, Lower;
    var s := key + [c] + rest;
    assert IsKeyChar(key[0]);
    RunLengthIs(s, IsSeparator, 0);
    assert s[0..] == s;
    RunLengthIs(s, IsKeyChar, |key|);
    ParamsFront(s);
  }

  lemma NoKey(c: char, rest: string)
    requires !IsKeyChar(c) && !IsSeparator(c)
    ensures ParamsOf([c] + rest) == Some([])
  {
    hide ParamsOf, RunLength, Value, Lower;
    var s := [c] + rest;
    RunLengthIs(s, IsSeparator, 0);
    assert s[0..] == s;
    RunLengthIs(s, IsKeyChar, 0);
    ParamsFront(s);
  }
}
