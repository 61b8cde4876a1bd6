/** The Digest authentication header: the loop that reads it, and the header it reads back. */
module Digest {
  import opened Results
  import opened Text
  import opened Headers

  datatype DigestParams = DigestParams(
    realm: string, nonce: string, username: string, uri: string, response: string, algorithm: Option<string>,
    opaque_: Option<string>, qop: Option<string>, nc: Option<string>, cnonce: Option<string>)

  const NO_PARAMS := DigestParams("", "", "", "", "", None, None, None, None, None)

  function Assign(p: DigestParams, key: string, value: string): DigestParams {
    if key == "realm" then p.(realm := value)
    else if key == "nonce" then p.(nonce := value)
    else if key == "username" then p.(username := value)
    else if key == "uri" then p.(uri := value)
    else if key == "response" then p.(response := value)
    else if key == "algorithm" then p.(algorithm := Some(value))
    else if key == "opaque" then p.(opaque_ := Some(value))
    else if key == "qop" then p.(qop := Some(value))
    else if key == "nc" then p.(nc := Some(value))
    else if key == "cnonce" then p.(cnonce := Some(value))
    else p
  }

  function SkipComma(s: string): string {
    if s != "" && s[0] == ',' then s[1..] else s
  }

  /** A value and what follows it; None when a quoted value is not closed and the slice behind it is out of range. */
  function ValueOf(t: string): Option<(string, string)> {
    if t != "" && t[0] == '"' then
      var q := IndexOf(t[1..], '"');
      if q == |t| - 1 then None else Some((t[1..][..q], t[1..][q + 1..]))
    else
      var end := IndexOf(t, ',');
      Some((Trim(t[..end]), t[end..]))
  }

  lemma ValueShortens(t: string)
    ensures ValueOf(t).Some? ==> |ValueOf(t).value.1| <= |t|
  {
  }

  /** Reads the pairs of s into p, later ones over earlier ones. */
  function ReadPairs(s: string, p: DigestParams): Option<DigestParams>
    decreases |s|
  {
    if s == "" then Some(p)
    else
      var r := Trim(s);
      var eq := IndexOf(r, '=');
      if eq == |r| then Some(p)
      else
        var key := Lower(Trim(r[..eq]));
        var t := Trim(r[eq + 1..]);
        match ValueOf(t)
        case None => None
        case Some((value, after)) =>
          TrimIsTrimmed(s);
          TrimIsTrimmed(r[eq + 1..]);
          ValueShortens(t);
          ReadPairs(SkipComma(after), Assign(p, key, value))
  }

  function Parse(header: string): Parsing<DigestParams> {
    if !("Digest " <= header) then Refused
    else
      match ReadPairs(Trim(header[7..]), NO_PARAMS)
      case None => OutOfRange
      case Some(p) => if p.realm == "" || p.nonce == "" then Refused else Good(p)
  }

  lemma PairsFront(s: string, p: DigestParams)
    ensures |Trim(s)| <= |s|
    ensures s == "" ==> ReadPairs(s, p) == Some(p)
    ensures
      var r := Trim(s);
      var eq := IndexOf(r, '=');
      && (s != "" && eq == |r| ==> ReadPairs(s, p) == Some(p))
      && (s != "" && eq < |r| ==>
          && |Trim(r[eq + 1..])| <= |r| - eq - 1
          && match ValueOf(Trim(r[eq + 1..]))
             case None => ReadPairs(s, p) == None
             case Some((value, after)) =>
               |after| <= |Trim(r[eq + 1..])|
               && ReadPairs(s, p) == ReadPairs(SkipComma(after), Assign(p, Lower(Trim(r[..eq])), value)))
  {
    var r := Trim(s);
    var eq := IndexOf(r, '=');
    TrimIsTrimmed(s);
    if eq < |r| {
      TrimIsTrimmed(r[eq + 1..]);
      ValueShortens(Trim(r[eq + 1..]));
    }
  }

  /** The loop of the source: it eats `remaining` from the front. */
  method ParseDigestAuth(header: string) returns (parsed: Parsing<DigestParams>)
    ensures parsed == Parse(header)
  {
    hide ReadPairs, Trim, Lower, Assign, IndexOf;
    if !("Digest " <= header) {
      return Refused;
    }
    var p := NO_PARAMS;
    var remaining := Trim(header[7..]);
    while remaining != ""
      invariant ReadPairs(remaining, p) == ReadPairs(Trim(header[7..]), NO_PARAMS)
      decreases |remaining|
    {
      PairsFront(remaining, p);
      remaining := Trim(remaining);
      var eq := IndexOf(remaining, '=');
      if eq == |remaining| {
        return if p.realm == "" || p.nonce == "" then Refused else Good(p);
      }
      var key := Lower(Trim(remaining[..eq]));
      remaining := Trim(remaining[eq + 1..]);
      var value;
      if remaining != "" && remaining[0] == '"' {
        var close := IndexOf(remaining[1..], '"');
        if close == |remaining| - 1 {
          return OutOfRange;
        }
        value := remaining[1..][..close];
        remaining := remaining[1..][close + 1..];
      } else {
        var end := IndexOf(remaining, ',');
        value := Trim(remaining[..end]);
        remaining := remaining[end..];
      }
      p := Assign(p, key, value);
      if remaining != "" && remaining[0] == ',' {
        remaining := remaining[1..];
      }
    }
    PairsFront(remaining, p);
    parsed := if p.realm == "" || p.nonce == "" then Refused else Good(p);
  }

  // --- Printing ---

  datatype Pair = Quoted(key: string, value: string) | Token(key: string, value: string)

  function ValueText(pair: Pair): string {
    if pair.Quoted? then "\"" + pair.value + "\"" else pair.value
  }

  function PairText(pair: Pair): string {
    pair.key + "=" + ValueText(pair)
  }

  function PairsText(pairs: seq<Pair>): string {
    if pairs == [] then ""
    else if |pairs| == 1 then PairText(pairs[0])
    else PairText(pairs[0]) + ", " + PairsText(pairs[1..])
  }

  /** Without an algorithm, MD5. */
  function Named(algorithm: string): string {
    if algorithm == "" then "MD5" else algorithm
  }

  function Printed(
    username: string, realm: string, nonce: string, uri: string, response: string, algorithm: string,
    cnonce: Option<string>): seq<Pair>
  {
    [Quoted("username", username), Quoted("realm", realm), Quoted("nonce", nonce), Quoted("uri", uri),
     Quoted("response", response), Token("algorithm", Named(algorithm))]
    + match cnonce
      case None => []
      case Some(c) => [Token("qop", "auth"), Token("nc", "00000001"), Quoted("cnonce", c)]
  }

  /** The header around a response already computed; with `qop=auth` it also carries the client nonce. */
  function Build(
    username: string, realm: string, nonce: string, uri: string, response: string, algorithm: string,
    cnonce: Option<string>): string
  {
    "Digest " + PairsText(Printed(username, realm, nonce, uri, response, algorithm, cnonce))
  }

  /** A value printed without quotes: one word, not opened by a quote, without a comma. */
  predicate IsToken(s: string) {
    s != "" && Trimmed(s) && s[0] != '"' && ',' !in s
  }

  predicate IsName(key: string) {
    key != "" && Trimmed(key) && '=' !in key && Lower(key) == key
  }

  predicate IsPair(pair: Pair) {
    IsName(pair.key) && if pair.Quoted? then Unquoted(pair.value) else IsToken(pair.value)
  }

  predicate ArePairs(pairs: seq<Pair>) {
    forall i :: 0 <= i < |pairs| ==> IsPair(pairs[i])
  }

  /** What may follow a pair: nothing, or a comma and more, not ending in a space. */
  predicate Follows(after: string) {
    after == "" || (after[0] == ',' && !IsSpace(after[|after| - 1]))
  }

  lemma NameIsSplit(lead: string, key: string, t: string)
    requires (lead == "" || lead == " ") && IsName(key) && t != "" && Trimmed(t)
    ensures
      var r := Trim(lead + (key + "=" + t));
      && r == key + "=" + t && IndexOf(r, '=') == |key| && Lower(Trim(r[..|key|])) == key
      && Trim(r[|key| + 1..]) == t
  {
    var whole := key + "=" + t;
    assert whole[0] == key[0] && whole[|whole| - 1] == t[|t| - 1];
    assert Trimmed(whole);
    TrimTrimmed(whole);
    if lead == " " {
      TrimLeadingSpace(whole);
    } else {
      assert lead + whole == whole;
    }
    assert whole == key + ['='] + t;
    IndexAfterPrefix(key, '=', t);
    assert whole[..|key|] == key && whole[|key| + 1..] == t;
    TrimTrimmed(key);
    TrimTrimmed(t);
  }

  lemma ValueIsRead(lead: string, key: string, t: string, value: string, after: string, p: DigestParams)
    requires (lead == "" || lead == " ") && IsName(key) && t != "" && Trimmed(t)
    requires ValueOf(t) == Some((value, after))
    ensures ReadPairs(lead + (key + "=" + t), p) == ReadPairs(SkipComma(after), Assign(p, key, value))
  {
    NameIsSplit(lead, key, t);
    hide Trim, Lower, Assign, SkipComma, IndexOf, ValueOf, IsName, Trimmed;
    assert lead + (key + "=" + t) != "";
  }

  lemma QuotedIsCut(value: string, after: string)
    requires Unquoted(value)
    ensures ValueOf("\"" + value + "\"" + after) == Some((value, after))
  {
    var t := "\"" + value + "\"" + after;
    var u := value + "\"" + after;
    assert t[1..] == u && u == value + ['"'] + after;
    IndexAfterPrefix(value, '"', after);
    hide IndexOf;
    assert u[..|value|] == value && u[|value| + 1..] == after;
  }

  lemma TokenIsCut(value: string, after: string)
    requires IsToken(value) && Follows(after)
    ensures ValueOf(value + after) == Some((value, after))
  {
    var t := value + after;
    if after == "" {
      IndexOfAbsent(t, ',');
    } else {
      assert t == value + [','] + after[1..];
      IndexAfterPrefix(value, ',', after[1..]);
    }
    TrimTrimmed(value);
    hide IndexOf, Trim;
    assert t[..|value|] == value && t[|value|..] == after;
  }

  lemma ValueTextIsCut(pair: Pair, after: string)
    requires IsPair(pair) && Follows(after)
    ensures
      var t := ValueText(pair) + after;
      t != "" && Trimmed(t) && ValueOf(t) == Some((pair.value, after))
  {
    hide ValueOf, IsName, Unquoted;
    var t := ValueText(pair) + after;
    if pair.Quoted? {
      QuotedIsCut(pair.value, after);
      assert t[|t| - 1] == (if after == "" then '"' else after[|after| - 1]);
    } else {
      TokenIsCut(pair.value, after);
      assert t[|t| - 1] == (if after == "" then pair.value[|pair.value| - 1] else after[|after| - 1]);
    }
  }

  lemma PairIsRead(lead: string, pair: Pair, after: string, p: DigestParams)
    requires (lead == "" || lead == " ") && IsPair(pair) && Follows(after)
    ensures ReadPairs(lead + (PairText(pair) + after), p)
      == ReadPairs(SkipComma(after), Assign(p, pair.key, pair.value))
  {
    hide ReadPairs, ValueOf, Assign, SkipComma, IsName, Unquoted, ValueText, IsToken, Follows, Trimmed;
    var t := ValueText(pair) + after;
    ValueTextIsCut(pair, after);
    ValueIsRead(lead, pair.key, t, pair.value, after, p);
    assert PairText(pair) + after == pair.key + "=" + t;
  }

  function AssignAll(p: DigestParams, pairs: seq<Pair>): DigestParams
    decreases |pairs|
  {
    if pairs == [] then p else AssignAll(Assign(p, pairs[0].key, pairs[0].value), pairs[1..])
  }

  lemma {:induction false} PairsEnd(pairs: seq<Pair>)
    requires ArePairs(pairs) && pairs != []
    ensures var l := PairsText(pairs); l != "" && !IsSpace(l[|l| - 1])
  {
    var pair := pairs[|pairs| - 1];
    assert IsPair(pairs[0]);
    if |pairs| > 1 {
      PairsEnd(pairs[1..]);
      var rest := PairsText(pairs[1..]);
      var l := PairText(pairs[0]) + ", " + rest;
      assert PairsText(pairs) == l;
      hide PairsText, PairText, ArePairs, IsPair, IsSpace;
      assert l[|l| - 1] == rest[|rest| - 1];
    } else {
      var t := ValueText(pair);
      assert t[|t| - 1] == (if pair.Quoted? then '"' else pair.value[|pair.value| - 1]);
    }
  }

  lemma CommaSpace(first: string, rest: string)
    requires rest != "" && !IsSpace(rest[|rest| - 1])
    ensures
      var after := "," + (" " + rest);
      && first + ", " + rest == first + after && after[1..] == " " + rest && Follows(after)
  {
    var after := "," + (" " + rest);
    assert ", " == "," + " ";
    assert after[|after| - 1] == rest[|rest| - 1];
  }

  lemma FirstPairText(pairs: seq<Pair>)
    requires |pairs| > 1 && ArePairs(pairs)
    ensures
      var after := "," + (" " + PairsText(pairs[1..]));
      && PairsText(pairs) == PairText(pairs[0]) + after && after[1..] == " " + PairsText(pairs[1..])
      && Follows(after)
  {
    assert ArePairs(pairs[1..]);
    PairsEnd(pairs[1..]);
    assert PairsText(pairs) == PairText(pairs[0]) + ", " + PairsText(pairs[1..]);
    hide PairText, ArePairs, IsSpace, PairsText, Follows;
    CommaSpace(PairText(pairs[0]), PairsText(pairs[1..]));
  }

  /** Printed pairs are read in their order. */
  lemma {:induction false} PairsAreRead(lead: string, pairs: seq<Pair>, p: DigestParams)
    requires (lead == "" || lead == " ") && ArePairs(pairs) && pairs != []
    ensures ReadPairs(lead + PairsText(pairs), p) == Some(AssignAll(p, pairs))
    decreases |pairs|
  {
    var next := Assign(p, pairs[0].key, pairs[0].value);
    assert IsPair(pairs[0]) && ArePairs(pairs[1..]);
    if |pairs| > 1 {
      var after := "," + (" " + PairsText(pairs[1..]));
      FirstPairText(pairs);
      hide Assign, IsPair, ArePairs, PairText, PairsText, ReadPairs, Follows;
      PairIsRead(lead, pairs[0], after, p);
      PairsAreRead(" ", pairs[1..], next);
    } else {
      assert PairText(pairs[0]) + "" == PairsText(pairs);
      hide Assign, IsPair, ArePairs, PairText, PairsText;
      PairIsRead(lead, pairs[0], "", p);
      assert ReadPairs("", next) == Some(next);
      assert pairs[1..] == [];
    }
  }

  /** Lower-case letters make a name. */
  lemma LettersAreName(key: string)
    requires key != "" && forall i :: 0 <= i < |key| ==> 'a' <= key[i] <= 'z'
    ensures IsName(key)
  {
  }

  lemma NamesAreNames()
    ensures IsName("username") && IsName("realm") && IsName("nonce") && IsName("uri") && IsName("response")
    ensures IsName("algorithm") && IsName("qop") && IsName("nc") && IsName("cnonce")
  {
    hide IsName;
    LettersAreName("username");
    LettersAreName("realm");
    LettersAreName("nonce");
    LettersAreName("uri");
    LettersAreName("response");
    LettersAreName("algorithm");
    LettersAreName("qop");
    LettersAreName("nc");
    LettersAreName("cnonce");
  }

  lemma TokensAreTokens()
    ensures IsToken("auth") && IsToken("00000001") && IsToken("MD5")
  {
  }

  lemma PrintedArePairs(
    username: string, realm: string, nonce: string, uri: string, response: string, algorithm: string,
    cnonce: Option<string>)
    requires Unquoted(username) && Unquoted(realm) && Unquoted(nonce) && Unquoted(uri) && Unquoted(response)
    requires IsToken(Named(algorithm)) && (cnonce.Some? ==> Unquoted(cnonce.value))
    ensures ArePairs(Printed(username, realm, nonce, uri, response, algorithm, cnonce))
  {
    NamesAreNames();
    TokensAreTokens();
    hide IsName, IsToken, Unquoted, Named;
  }

  lemma AssignTwice(p: DigestParams, a: seq<Pair>, b: seq<Pair>)
    ensures AssignAll(p, a + b) == AssignAll(AssignAll(p, a), b)
    decreases |a|
  {
    if a == [] {
      assert a + b == b;
    } else {
      assert (a + b)[1..] == a[1..] + b;
      AssignTwice(Assign(p, a[0].key, a[0].value), a[1..], b);
    }
  }

  lemma ThreeAssigned(p: DigestParams, a: Pair, b: Pair, c: Pair)
    ensures AssignAll(p, [a, b, c]) == Assign(Assign(Assign(p, a.key, a.value), b.key, b.value), c.key, c.value)
  {
    hide Assign;
    assert [a, b, c][1..] == [b, c] && [b, c][1..] == [c] && [c][1..] == [];
    var q := Assign(p, a.key, a.value);
    var r := Assign(q, b.key, b.value);
    assert AssignAll(p, [a, b, c]) == AssignAll(q, [b, c]);
    assert AssignAll(q, [b, c]) == AssignAll(r, [c]);
    assert AssignAll(r, [c]) == AssignAll(Assign(r, c.key, c.value), []);
  }

  /**
   * The header reads back as printed, with and without qop. Quoted values may be anything without a quote; the
   * algorithm is printed bare, so it must be a token.
   */
  lemma GoodValuesReadBack(
    username: string, realm: string, nonce: string, uri: string, response: string, algorithm: string,
    cnonce: Option<string>)
    requires Unquoted(username) && IsWord(realm) && IsWord(nonce) && Unquoted(uri) && Unquoted(response)
    requires IsToken(Named(algorithm)) && (cnonce.Some? ==> Unquoted(cnonce.value))
    ensures
      Parse(Build(username, realm, nonce, uri, response, algorithm, cnonce))
      == Good(DigestParams(
        realm, nonce, username, uri, response, Some(Named(algorithm)), None,
        if cnonce.Some? then Some("auth") else None, if cnonce.Some? then Some("00000001") else None, cnonce))
  {
    var pairs := Printed(username, realm, nonce, uri, response, algorithm, cnonce);
    PrintedArePairs(username, realm, nonce, uri, response, algorithm, cnonce);
    PrintedAreAssigned(username, realm, nonce, uri, response, algorithm, cnonce);
    assert pairs != [] && pairs[0] == Quoted("username", username);
    hide Printed, AssignAll, Named;
    PrintedHeaderIsRead(pairs);
  }

  lemma PrintedHeaderIsRead(pairs: seq<Pair>)
    requires ArePairs(pairs) && pairs != []
    ensures "Digest " <= "Digest " + PairsText(pairs)
    ensures ReadPairs(Trim(("Digest " + PairsText(pairs))[7..]), NO_PARAMS) == Some(AssignAll(NO_PARAMS, pairs))
  {
    var text := PairsText(pairs);
    PairsEnd(pairs);
    assert IsPair(pairs[0]);
    assert text[0] == pairs[0].key[0];
    assert Trimmed(text);
    TrimTrimmed(text);
    PairsAreRead("", pairs, NO_PARAMS);
    hide PairsText, ReadPairs, Trim, AssignAll;
    assert "" + text == text;
    assert ("Digest " + text)[7..] == text;
  }

  lemma PrintedAreAssigned(
    username: string, realm: string, nonce: string, uri: string, response: string, algorithm: string,
    cnonce: Option<string>)
    ensures
      AssignAll(NO_PARAMS, Printed(username, realm, nonce, uri, response, algorithm, cnonce))
      == DigestParams(
        realm, nonce, username, uri, response, Some(Named(algorithm)), None,
        if cnonce.Some? then Some("auth") else None, if cnonce.Some? then Some("00000001") else None, cnonce)
  {
    var a, b, c := Quoted("username", username), Quoted("realm", realm), Quoted("nonce", nonce);
    var d, e, f := Quoted("uri", uri), Quoted("response", response), Token("algorithm", Named(algorithm));
    ThreeAssigned(NO_PARAMS, a, b, c);
    var half := DigestParams(realm, nonce, username, "", "", None, None, None, None, None);
    ThreeAssigned(half, d, e, f);
    AssignTwice(NO_PARAMS, [a, b, c], [d, e, f]);
    assert [a, b, c] + [d, e, f] == [a, b, c, d, e, f];
    var whole := half.(uri := uri, response := response, algorithm := Some(Named(algorithm)));
    assert AssignAll(NO_PARAMS, [a, b, c, d, e, f]) == whole;
    if cnonce.Some? {
      var g, h, i := Token("qop", "auth"), Token("nc", "00000001"), Quoted("cnonce", cnonce.value);
      ThreeAssigned(whole, g, h, i);
      AssignTwice(NO_PARAMS, [a, b, c, d, e, f], [g, h, i]);
    } else {
      assert [a, b, c, d, e, f] + [] == [a, b, c, d, e, f];
    }
  }

  // --- The text on the wire ---

  lemma QuotedFront(key: string, value: string, rest: seq<Pair>)
    requires rest != []
    ensures PairsText([Quoted(key, value)] + rest) == key + "=" + ("\"" + value + "\"") + ", " + PairsText(rest)
    ensures PairsText([Quoted(key, value)]) == key + "=" + ("\"" + value + "\"")
  {
    assert ([Quoted(key, value)] + rest)[1..] == rest;
  }

  lemma TokenFront(key: string, value: string, rest: seq<Pair>)
    requires rest != []
    ensures PairsText([Token(key, value)] + rest) == key + "=" + value + ", " + PairsText(rest)
    ensures PairsText([Token(key, value)]) == key + "=" + value
  {
    assert ([Token(key, value)] + rest)[1..] == rest;
  }

  /** The pairs behind the response. */
  function Tail(algorithm: string, cnonce: Option<string>): seq<Pair> {
    var named := [Token("algorithm", Named(algorithm))];
    match cnonce
    case None => named
    case Some(c) => named + ([Token("qop", "auth")] + ([Token("nc", "00000001")] + [Quoted("cnonce", c)]))
  }

  lemma TailOnWire(algorithm: string, cnonce: Option<string>)
    ensures
      var named := "algorithm" + "=" + (if algorithm == "" then "MD5" else algorithm);
      PairsText(Tail(algorithm, cnonce)) ==
        match cnonce
        case None => named
        case Some(c) =>
          named + ", " + (
          "qop" + "=" + "auth" + ", " + ("nc" + "=" + "00000001" + ", " + ("cnonce" + "=" + ("\"" + c + "\""))))
  {
    var c := if cnonce.Some? then cnonce.value else "";
    var last := [Quoted("cnonce", c)];
    QuotedFront("cnonce", c, last);
    TokenFront("nc", "00000001", last);
    TokenFront("qop", "auth", [Token("nc", "00000001")] + last);
    TokenFront("algorithm", Named(algorithm), [Token("qop", "auth")] + ([Token("nc", "00000001")] + last));
    hide PairsText;
  }

  /** The header character by character: algorithm, qop and nc bare, all else in quotes. */
  lemma HeaderOnWire(
    username: string, realm: string, nonce: string, uri: string, response: string, algorithm: string,
    cnonce: Option<string>)
    ensures
      var named := "algorithm" + "=" + (if algorithm == "" then "MD5" else algorithm);
      var tail :=
        match cnonce
        case None => named
        case Some(c) =>
          named + ", " + (
          "qop" + "=" + "auth" + ", " + ("nc" + "=" + "00000001" + ", " + ("cnonce" + "=" + ("\"" + c + "\""))));
      Build(username, realm, nonce, uri, response, algorithm, cnonce) ==
      "Digest " + (
        "username" + "=" + ("\"" + username + "\"") + ", " + (
        "realm" + "=" + ("\"" + realm + "\"") + ", " + (
        "nonce" + "=" + ("\"" + nonce + "\"") + ", " + (
        "uri" + "=" + ("\"" + uri + "\"") + ", " + (
        "response" + "=" + ("\"" + response + "\"") + ", " + tail)))))
  {
    TailOnWire(algorithm, cnonce);
    var tail := Tail(algorithm, cnonce);
    var f5 := [Quoted("response", response)] + tail;
    var f4 := [Quoted("uri", uri)] + f5;
    var f3 := [Quoted("nonce", nonce)] + f4;
    var f2 := [Quoted("realm", realm)] + f3;
    assert Printed(username, realm, nonce, uri, response, algorithm, cnonce) == [Quoted("username", username)] + f2;
    assert tail != [];
    hide PairsText, Printed, Tail;
    QuotedFront("response", response, tail);
    QuotedFront("uri", uri, f5);
    QuotedFront("nonce", nonce, f4);
    QuotedFront("realm", realm, f3);
    QuotedFront("username", username, f2);
  }

  /** An opaque value is read under its key. */
  lemma OpaqueIsRead(p: DigestParams, value: string)
    requires Unquoted(value)
    ensures ReadPairs("opaque" + "=" + ("\"" + value + "\""), p) == Some(p.(opaque_ := Some(value)))
  {
    LettersAreName("opaque");
    var pair := Quoted("opaque", value);
    var text := "opaque" + "=" + ("\"" + value + "\"");
    assert PairText(pair) == text;
    assert "" + (text + "") == text;
    assert SkipComma("") == "" && ReadPairs("", p.(opaque_ := Some(value))) == Some(p.(opaque_ := Some(value)));
    hide IsName, ReadPairs, PairText;
    PairIsRead("", pair, "", p);
  }
}
