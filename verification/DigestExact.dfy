/**
 * Which Digest headers read back: a header in which some value holds a quote is never read as it was printed, although
 * the reader may find the same keys again inside other values.
 */
module DigestExact {
  import opened Results
  import opened Text
  import opened Headers
  import opened Digest

  // --- One pair at a time ---

  datatype Step = Step(key: string, value: string, rest: string)

  /** The pair at the front of a text that ends plain. */
  function Next(s: string): Option<Step> {
    var e := IndexOf(s, '=');
    if e == |s| then None
    else
      match ValueOf(TrimStart(s[e + 1..]))
      case None => None
      case Some((value, after)) => Some(Step(Lower(Trim(s[..e])), value, SkipComma(after)))
  }

  lemma {:induction false} TrimStartIndex(s: string, c: char)
    requires !IsSpace(c)
    ensures |s| - IndexOf(s, c) == |TrimStart(s)| - IndexOf(TrimStart(s), c)
    ensures Trim(s[..IndexOf(s, c)]) == Trim(TrimStart(s)[..IndexOf(TrimStart(s), c)])
  {
    if s != "" && IsSpace(s[0]) {
      TrimStartIndex(s[1..], c);
      var i := IndexOf(s, c);
      assert s[..i][1..] == s[1..][..i - 1];
    }
  }

  lemma PlainTrim(s: string)
    requires EndsPlain(s)
    ensures Trim(s) == TrimStart(s) && EndsPlain(TrimStart(s)) && (s != "" ==> TrimStart(s) != "")
  {
    TrimStartIsSuffix(s);
    if s != "" {
      PlainIsKept(s);
    }
  }

  lemma {:induction false} PlainIsKept(s: string)
    requires s != "" && !IsSpace(s[|s| - 1])
    ensures TrimStart(s) != ""
  {
    if IsSpace(s[0]) {
      PlainIsKept(s[1..]);
    }
  }

  /** What stands before a comma, or all of it. */
  function UpToComma(t: string): string {
    t[..IndexOf(t, ',')]
  }

  lemma ValueShape(t: string)
    requires ValueOf(t).Some?
    ensures
      var (value, after) := ValueOf(t).value;
      if t != "" && t[0] == '"' then t == "\"" + value + "\"" + after && Unquoted(value)
      else value == Trim(UpToComma(t)) && after == t[|UpToComma(t)|..]
  {
    if t != "" && t[0] == '"' {
      var u := t[1..];
      var q := IndexOf(u, '"');
      assert t == "\"" + u && u == u[..q] + "\"" + u[q + 1..];
    }
  }

  predicate IsSuffix(a: string, s: string) {
    |a| <= |s| && a == s[|s| - |a|..]
  }

  lemma SuffixOfSuffix(a: string, b: string, s: string)
    requires IsSuffix(a, b) && IsSuffix(b, s)
    ensures IsSuffix(a, s)
  {
  }

  lemma SuffixIsPlain(a: string, s: string)
    requires IsSuffix(a, s) && EndsPlain(s)
    ensures EndsPlain(a)
  {
  }

  lemma TailIsSuffix(s: string, k: nat)
    requires k <= |s|
    ensures IsSuffix(s[k..], s)
  {
  }

  lemma SuffixOfItself(t: string, y: string)
    requires |t| <= |y| && t == y[|y| - |t|..]
    ensures IsSuffix(t, y)
  {
  }

  lemma SuffixTail(a: string, s: string, k: nat)
    requires IsSuffix(a, s) && k <= |a|
    ensures |a| <= |s| && a[k..] == s[|s| - |a| + k..]
  {
  }

  lemma RestIsSuffix(t: string)
    requires ValueOf(t).Some?
    ensures IsSuffix(SkipComma(ValueOf(t).value.1), t)
  {
    var (value, after) := ValueOf(t).value;
    ValueShape(t);
    assert IsSuffix(after, t);
    hide ValueOf;
    assert IsSuffix(SkipComma(after), after);
    SuffixOfSuffix(SkipComma(after), after, t);
  }

  /** Cutting at the first equals sign before or after trimming gives the same parts. */
  lemma CutAtEquals(s: string, r: string, e: nat, k: nat)
    requires EndsPlain(s) && r == Trim(s) && e == IndexOf(s, '=') && k == IndexOf(r, '=')
    ensures s == "" ==> r == ""
    ensures e <= |s| && k <= |r| && (e == |s| <==> k == |r|)
    ensures e < |s| ==> Trim(r[..k]) == Trim(s[..e])
    ensures e < |s| ==> Trim(r[k + 1..]) == TrimStart(s[e + 1..])
  {
    TrimStartIndex(s, '=');
    PlainTrim(s);
    TrimStartIsSuffix(s);
    SuffixOfItself(r, s);
    hide Trim, TrimStart, IndexOf, EndsPlain, IsSuffix;
    if e < |s| {
      BehindEquals(s, r, e, k);
    }
  }

  lemma BehindEquals(s: string, r: string, e: nat, k: nat)
    requires EndsPlain(s) && IsSuffix(r, s) && e < |s| && k < |r| && |s| - e == |r| - k
    ensures Trim(r[k + 1..]) == TrimStart(s[e + 1..])
  {
    SuffixTail(r, s, k + 1);
    TailIsSuffix(s, e + 1);
    SuffixIsPlain(s[e + 1..], s);
    hide Trim, TrimStart, EndsPlain, IsSuffix;
    PlainTrim(s[e + 1..]);
  }

  lemma NextIs(s: string, e: nat)
    requires e == IndexOf(s, '=')
    ensures e == |s| ==> Next(s) == None
    ensures
      e < |s| ==>
        Next(s) == (
          match ValueOf(TrimStart(s[e + 1..]))
          case None => None
          case Some((value, after)) => Some(Step(Lower(Trim(s[..e])), value, SkipComma(after))))
  {
    hide Trim, TrimStart, Lower, ValueOf, SkipComma, IndexOf;
  }

  lemma NextPart(s: string, e: nat, t: string)
    requires e == IndexOf(s, '=') && Next(s).Some? && t == TrimStart(s[e + 1..])
    ensures e < |s| && ValueOf(t).Some?
    ensures Next(s).value.value == ValueOf(t).value.0 && Next(s).value.rest == SkipComma(ValueOf(t).value.1)
  {
    NextIs(s, e);
    hide Next, Trim, TrimStart, Lower, ValueOf, SkipComma, IndexOf;
  }

  lemma RestShortens(s: string)
    requires EndsPlain(s) && Next(s).Some?
    ensures |Next(s).value.rest| < |s| && EndsPlain(Next(s).value.rest) && IsSuffix(Next(s).value.rest, s)
  {
    var e := IndexOf(s, '=');
    var t := TrimStart(s[e + 1..]);
    NextPart(s, e, t);
    RestIsSuffix(t);
    TrimStartIsSuffix(s[e + 1..]);
    hide Next, TrimStart, ValueOf, IndexOf, SkipComma, EndsPlain;
    SuffixOfItself(t, s[e + 1..]);
    RestBehindEquals(Next(s).value.rest, t, s, e);
  }

  lemma RestBehindEquals(rest: string, t: string, s: string, e: nat)
    requires e < |s| && IsSuffix(t, s[e + 1..]) && IsSuffix(rest, t) && EndsPlain(s)
    ensures |rest| < |s| && EndsPlain(rest) && IsSuffix(rest, s)
  {
    TailIsSuffix(s, e + 1);
    SuffixIsShort(t, s[e + 1..]);
    SuffixIsShort(rest, t);
    hide IsSuffix, EndsPlain;
    SuffixOfSuffix(t, s[e + 1..], s);
    SuffixOfSuffix(rest, t, s);
    SuffixIsPlain(rest, s);
  }

  lemma SuffixIsShort(a: string, s: string)
    requires IsSuffix(a, s)
    ensures |a| <= |s|
  {
  }

  lemma ReadOne(s: string, r: string, k: nat, p: DigestParams)
    requires s != "" && r == Trim(s) && k == IndexOf(r, '=')
    ensures k == |r| ==> ReadPairs(s, p) == Some(p)
    ensures
      k < |r| ==>
        ReadPairs(s, p) == (
          match ValueOf(Trim(r[k + 1..]))
          case None => None
          case Some((value, after)) => ReadPairs(SkipComma(after), Assign(p, Lower(Trim(r[..k])), value)))
  {
    hide Trim, Lower, Assign, ValueOf, SkipComma, IndexOf;
  }

  /** Reading goes pair by pair. */
  lemma NextIsRead(s: string, p: DigestParams)
    requires EndsPlain(s)
    ensures
      match Next(s)
      case None => ReadPairs(s, p) == Some(p) || ReadPairs(s, p) == None
      case Some(step) => ReadPairs(s, p) == ReadPairs(step.rest, Assign(p, step.key, step.value))
  {
    var r := Trim(s);
    var (e, k) := (IndexOf(s, '='), IndexOf(r, '='));
    CutAtEquals(s, r, e, k);
    NextIs(s, e);
    if s != "" {
      ReadOne(s, r, k, p);
    }
    hide Next, Trim, TrimStart, Lower, Assign, ValueOf, SkipComma, IndexOf, EndsPlain, ReadPairs;
  }

  /** A value as it may be read: free of quotes, or a token. */
  predicate Tokenish(v: string) {
    ',' !in v && Trimmed(v) && (v != "" ==> v[0] != '"')
  }

  predicate Readable(v: string) {
    Unquoted(v) || Tokenish(v)
  }

  lemma TokenIsTokenish(t: string)
    requires TrimStart(t) == t && (t != "" ==> t[0] != '"')
    ensures Tokenish(Trim(UpToComma(t)))
  {
    var x := UpToComma(t);
    TrimIsTrimmed(x);
    TrimKeepsOut(x, ',');
    TrimStartTrims(t);
    if x != "" {
      assert x[0] == t[0];
      assert TrimStart(x) == x;
      TrimEndTrims(x);
    }
  }

  lemma {:induction false} TrimStartTwice(s: string)
    ensures TrimStart(TrimStart(s)) == TrimStart(s)
  {
    TrimStartTrims(s);
  }

  lemma ValueIsReadable(s: string)
    requires Next(s).Some?
    ensures Readable(Next(s).value.value)
  {
    var t := TrimStart(s[IndexOf(s, '=') + 1..]);
    ValueShape(t);
    TrimStartTwice(s[IndexOf(s, '=') + 1..]);
    hide TrimStart, ValueOf, IndexOf, Tokenish;
    if !(t != "" && t[0] == '"') {
      TokenIsTokenish(t);
    }
  }

  // --- What a whole reading leaves ---

  /** The values that are printed in quotes. */
  predicate Others(p: DigestParams, f: string -> bool) {
    && f(p.username) && f(p.realm) && f(p.nonce) && f(p.uri) && f(p.response)
    && (p.cnonce.Some? ==> f(p.cnonce.value))
  }

  predicate Algorithm(p: DigestParams, f: string -> bool) {
    p.algorithm.Some? ==> f(p.algorithm.value)
  }

  /** No key of nine letters or more but the algorithm's. */
  lemma AssignKeeps(p: DigestParams, key: string, value: string, f: string -> bool)
    ensures Others(p, f) && (f(value) || |key| >= 9) ==> Others(Assign(p, key, value), f)
    ensures Algorithm(p, f) && (f(value) || key != "algorithm") ==> Algorithm(Assign(p, key, value), f)
  {
  }

  lemma {:induction false} FieldsAreReadable(s: string, p: DigestParams)
    requires EndsPlain(s) && Others(p, Readable) && Algorithm(p, Readable) && ReadPairs(s, p).Some?
    ensures Others(ReadPairs(s, p).value, Readable) && Algorithm(ReadPairs(s, p).value, Readable)
    decreases |s|
  {
    NextIsRead(s, p);
    if Next(s).Some? {
      RestShortens(s);
      ValueIsReadable(s);
      hide ReadPairs, Assign, Next, EndsPlain, Others, Algorithm, Readable;
      var step := Next(s).value;
      AssignKeeps(p, step.key, step.value, Readable);
      FieldsAreReadable(step.rest, Assign(p, step.key, step.value));
    }
  }

  // --- Where a value read with quotes must end ---

  predicate Ends(v: string) {
    '"' in v ==> v[|v| - 1] == '"'
  }

  predicate TokenEnds(y: string) {
    var x := Trim(UpToComma(y));
    Ends(x) || (x != "" && x[0] == '"')
  }

  /** Tokens that hold quotes end in one, but for those that reach up to n characters in front of the end. */
  predicate Near(u: string, n: int) {
    forall e :: 0 <= e < |u| && u[e] == '=' ==>
      TokenEnds(u[e + 1..]) || e + 1 + |UpToComma(u[e + 1..])| == |u| - n
  }

  lemma NearSuffix(a: string, s: string, n: int)
    requires IsSuffix(a, s) && Near(s, n)
    ensures Near(a, n)
  {
    hide TokenEnds, UpToComma;
    var k := |s| - |a|;
    forall e | 0 <= e < |a| && a[e] == '='
      ensures TokenEnds(a[e + 1..]) || e + 1 + |UpToComma(a[e + 1..])| == |a| - n
    {
      assert s[k + e] == '=' && s[k + e + 1..] == a[e + 1..];
    }
  }

  lemma NearPast(s: string, n: nat)
    requires Near(s, n) && |s| <= n
    ensures Near(s, -1)
  {
    hide TokenEnds, UpToComma;
  }

  lemma StepShape(s: string, e: nat, t: string)
    requires e == IndexOf(s, '=') && Next(s).Some? && t == TrimStart(s[e + 1..])
    ensures
      || Unquoted(Next(s).value.value)
      || (&& Tokenish(Next(s).value.value) && Next(s).value.value == Trim(UpToComma(t))
          && |Next(s).value.rest| <= |t| - |UpToComma(t)|)
  {
    NextPart(s, e, t);
    ValueShape(t);
    TrimStartTwice(s[e + 1..]);
    hide Next, TrimStart, Trim, IndexOf, ValueOf, Tokenish;
    if !(t != "" && t[0] == '"') {
      TokenIsTokenish(t);
    }
  }

  lemma StepEnds(s: string, n: int)
    requires EndsPlain(s) && Near(s, n) && Next(s).Some?
    ensures Ends(Next(s).value.value) || |Next(s).value.rest| <= n
  {
    var e := IndexOf(s, '=');
    var y := s[e + 1..];
    StepShape(s, e, TrimStart(y));
    TokenIsTrimmedFront(y);
    NearAt(s, n, e);
    hide Next, TrimStart, Trim, IndexOf, UpToComma, Near, Trimmed;
  }

  lemma NearAt(s: string, n: int, e: nat)
    requires Near(s, n) && e < |s| && s[e] == '='
    ensures TokenEnds(s[e + 1..]) || e + 1 + |UpToComma(s[e + 1..])| == |s| - n
  {
    hide TokenEnds, UpToComma;
  }

  lemma TokenIsTrimmedFront(y: string)
    ensures Trim(UpToComma(y)) == Trim(UpToComma(TrimStart(y)))
    ensures |y| - |UpToComma(y)| == |TrimStart(y)| - |UpToComma(TrimStart(y))|
  {
    TrimStartIndex(y, ',');
  }

  lemma {:induction false} EndsAreKept(s: string, p: DigestParams)
    requires EndsPlain(s) && Near(s, -1) && ReadPairs(s, p).Some?
    ensures Others(p, Ends) ==> Others(ReadPairs(s, p).value, Ends)
    ensures Algorithm(p, Ends) ==> Algorithm(ReadPairs(s, p).value, Ends)
    decreases |s|
  {
    NextIsRead(s, p);
    if Next(s).Some? {
      RestShortens(s);
      StepEnds(s, -1);
      hide ReadPairs, Assign, Next, EndsPlain, Others, Algorithm, Ends, Near, IsSuffix;
      var step := Next(s).value;
      NearSuffix(step.rest, s, -1);
      AssignKeeps(p, step.key, step.value, Ends);
      EndsAreKept(step.rest, Assign(p, step.key, step.value));
    }
  }

  /** Only one token reaches up to any one place. */
  lemma {:induction false} NearEndsAreKept(s: string, n: nat, p: DigestParams)
    requires EndsPlain(s) && Near(s, n) && ReadPairs(s, p).Some? && Others(p, Ends) && Algorithm(p, Ends)
    ensures Others(ReadPairs(s, p).value, Ends) || Algorithm(ReadPairs(s, p).value, Ends)
    decreases |s|
  {
    NextIsRead(s, p);
    if Next(s).Some? {
      RestShortens(s);
      StepEnds(s, n);
      hide ReadPairs, Assign, Next, EndsPlain, Others, Algorithm, Ends, Near, IsSuffix;
      var step := Next(s).value;
      NearSuffix(step.rest, s, n);
      AssignKeeps(p, step.key, step.value, Ends);
      if Ends(step.value) {
        NearEndsAreKept(step.rest, n, Assign(p, step.key, step.value));
      } else {
        NearPast(step.rest, n);
        AssignOne(p, step.key, step.value, Ends);
        EndsAreKept(step.rest, Assign(p, step.key, step.value));
      }
    }
  }

  lemma AssignOne(p: DigestParams, key: string, value: string, f: string -> bool)
    requires Others(p, f) && Algorithm(p, f)
    ensures Others(Assign(p, key, value), f) || Algorithm(Assign(p, key, value), f)
  {
  }

  // Printed pairs.

  /** The text behind a pair. */
  function After(rest: seq<Pair>): string {
    if rest == [] then "" else ", " + PairsText(rest)
  }

  lemma PairsTextIs(pairs: seq<Pair>)
    requires pairs != []
    ensures PairsText(pairs) == pairs[0].key + "=" + (ValueText(pairs[0]) + After(pairs[1..]))
  {
    if |pairs| == 1 {
      assert ValueText(pairs[0]) + "" == ValueText(pairs[0]);
    }
  }

  lemma UpToCommaOfPiece(piece: string, after: string)
    requires after == "" || after[0] == ','
    ensures UpToComma(piece + after) == UpToComma(piece)
  {
    var i := IndexOf(piece, ',');
    assert forall k :: 0 <= k < i ==> piece[..i][k] == piece[k] && piece[..i][k] in piece[..i];
    IndexIs(piece + after, ',', i);
    assert (piece + after)[..i] == piece[..i];
  }

  /** Every token read out of a printed value ends in a quote if it holds one, or may reach the value's end. */
  predicate PieceIsNear(piece: string, special: bool) {
    forall k :: 0 <= k <= |piece| ==> TokenEnds(piece[k..]) || (special && ',' !in piece)
  }

  lemma NearBehind(x: string, u: string, n: int)
    requires '=' !in x && Near(u, n)
    ensures Near(x + u, n)
  {
    hide TokenEnds, UpToComma;
    var s := x + u;
    forall e | 0 <= e < |s| && s[e] == '='
      ensures TokenEnds(s[e + 1..]) || e + 1 + |UpToComma(s[e + 1..])| == |s| - n
    {
      assert u[e - |x|] == '=' && s[e + 1..] == u[e - |x| + 1..];
    }
  }

  lemma NearInPiece(piece: string, after: string, n: int, special: bool, k: nat)
    requires k <= |piece| && (after == "" || after[0] == ',')
    requires PieceIsNear(piece, special) && (special ==> n == |after|)
    ensures
      var y := (piece + after)[k..];
      TokenEnds(y) || |UpToComma(y)| == |y| - n
  {
    assert (piece + after)[k..] == piece[k..] + after;
    UpToCommaOfPiece(piece[k..], after);
    assert TokenEnds(piece[k..] + after) == TokenEnds(piece[k..]);
    if special && ',' !in piece {
      assert forall i :: 0 <= i < |piece[k..]| ==> piece[k..][i] == piece[k + i];
      IndexOfAbsent(piece[k..], ',');
    }
  }

  lemma PairIsNear(key: string, piece: string, after: string, n: int, special: bool)
    requires '=' !in key && (after == "" || after[0] == ',') && Near(after, n)
    requires PieceIsNear(piece, special) && (special ==> n == |after|)
    ensures Near(key + "=" + (piece + after), n)
  {
    hide PieceIsNear, TokenEnds, UpToComma;
    var s := key + "=" + (piece + after);
    forall e | 0 <= e < |s| && s[e] == '='
      ensures TokenEnds(s[e + 1..]) || e + 1 + |UpToComma(s[e + 1..])| == |s| - n
    {
      var k := e - |key|;
      if k <= |piece| {
        assert s[e + 1..] == (piece + after)[k..];
        NearInPiece(piece, after, n, special, k);
      } else {
        assert s[e + 1..] == after[k - |piece|..];
        assert after[k - |piece| - 1] == '=';
      }
    }
  }

  lemma QuoteFreeEnds(y: string)
    requires Unquoted(y)
    ensures TokenEnds(y)
  {
    TrimKeepsOut(UpToComma(y), '"');
  }

  lemma QuoteAtEnd(x: string)
    requires ',' !in x && x != "" && x[|x| - 1] == '"'
    ensures TokenEnds(x)
  {
    IndexOfAbsent(x, ',');
    assert UpToComma(x) == x;
    PlainTrim(x);
    TrimStartIsSuffix(x);
    var r := TrimStart(x);
    assert r[|r| - 1] == x[|x| - 1];
  }

  lemma QuoteAtFront(y: string)
    requires y != "" && y[0] == '"'
    ensures TokenEnds(y)
  {
    var x := UpToComma(y);
    assert x != "" && x[0] == '"';
    TrimEndTrims(x);
    TrimEndBehind("\"", x[1..]);
    assert "\"" + x[1..] == x;
  }

  lemma QuotedIsNear(v: string)
    requires Readable(v)
    ensures PieceIsNear("\"" + v + "\"", false)
  {
    var piece := "\"" + v + "\"";
    hide TokenEnds, Trimmed;
    forall k | 0 <= k <= |piece|
      ensures TokenEnds(piece[k..])
    {
      if k == 0 {
        QuoteAtFront(piece[0..]);
      } else if k == |piece| {
        QuoteFreeEnds(piece[k..]);
      } else if ',' !in v {
        QuoteAtEnd(piece[k..]);
      } else {
        QuoteBehindComma(v[k - 1..]);
        assert piece[k..] == v[k - 1..] + "\"";
      }
    }
  }

  lemma QuoteBehindComma(x: string)
    requires Unquoted(x)
    ensures TokenEnds(x + "\"")
  {
    if ',' in x {
      var i := IndexOf(x, ',');
      assert i < |x|;
      assert x == x[..i] + x[i..];
      assert x + "\"" == x[..i] + (x[i..] + "\"");
      UpToCommaOfPiece(x[..i], x[i..] + "\"");
      IndexOfAbsent(x[..i], ',');
      QuoteFreeEnds(x[..i]);
      assert TokenEnds(x + "\"") == TokenEnds(x[..i]);
    } else {
      QuoteAtEnd(x + "\"");
    }
  }

  lemma TokenIsNear(v: string, special: bool)
    requires Readable(v) && (Ends(v) || special)
    ensures PieceIsNear(v, special)
  {
    hide TokenEnds, Trimmed;
    if Unquoted(v) {
      forall k | 0 <= k <= |v|
        ensures TokenEnds(v[k..])
      {
        QuoteFreeEnds(v[k..]);
      }
    } else if Ends(v) {
      forall k | 0 <= k <= |v|
        ensures TokenEnds(v[k..])
      {
        if k == |v| {
          QuoteFreeEnds(v[k..]);
        } else {
          QuoteAtEnd(v[k..]);
        }
      }
    }
  }

  /** Pairs as they are printed: keys without an equals sign, values that may be read. */
  predicate ArePrinted(pairs: seq<Pair>) {
    forall i :: 0 <= i < |pairs| ==> '=' !in pairs[i].key && Readable(pairs[i].value)
  }

  predicate TokensEnd(pairs: seq<Pair>) {
    forall i :: 0 <= i < |pairs| ==> pairs[i].Token? ==> Ends(pairs[i].value)
  }

  lemma AfterIsNear(rest: seq<Pair>, n: int)
    requires rest != [] ==> Near(PairsText(rest), n)
    ensures Near(After(rest), n)
  {
    if rest != [] {
      NearBehind(", ", PairsText(rest), n);
    }
  }

  lemma OnePairIsNear(pairs: seq<Pair>, n: int, special: bool)
    requires pairs != [] && ArePrinted(pairs) && Near(After(pairs[1..]), n)
    requires pairs[0].Token? ==> Ends(pairs[0].value) || special
    requires special ==> pairs[0].Token? && n == |After(pairs[1..])|
    ensures Near(PairsText(pairs), n)
  {
    hide Readable, Ends, Near, PairsText, PieceIsNear;
    assert '=' !in pairs[0].key && Readable(pairs[0].value);
    PairsTextIs(pairs);
    if pairs[0].Quoted? {
      QuotedIsNear(pairs[0].value);
    } else {
      TokenIsNear(pairs[0].value, special);
    }
    PairIsNear(pairs[0].key, ValueText(pairs[0]), After(pairs[1..]), n, special);
  }

  lemma {:induction false} PairsAreNear(front: seq<Pair>, back: seq<Pair>, n: int)
    requires ArePrinted(front + back) && TokensEnd(front) && (back != [] ==> Near(PairsText(back), n))
    ensures front + back != [] ==> Near(PairsText(front + back), n)
  {
    var pairs := front + back;
    if front == [] {
      assert pairs == back;
    } else {
      assert pairs[1..] == front[1..] + back;
      assert ArePrinted(pairs[1..]) && TokensEnd(front[1..]);
      assert pairs[0] == front[0] && (pairs[0].Token? ==> Ends(pairs[0].value));
      hide ArePrinted, TokensEnd, Near, PairsText, Ends;
      PairsAreNear(front[1..], back, n);
      AfterIsNear(pairs[1..], n);
      OnePairIsNear(pairs, n, false);
    }
  }

  // --- Reading printed pairs, whatever comes in between ---

  /** What is left of a quoted value that ends in a quote, with the closing quote behind it. */
  predicate Closed(w: string) {
    && ',' !in w
    && (|w| >= 1 ==> w[|w| - 1] == '"')
    && (|w| >= 2 ==> w[|w| - 2] == '"')
  }

  predicate IsRemnant(w: string, m: nat) {
    Unquoted(w) || (Closed(w) && |w| <= m)
  }

  /** A value in its quotes. */
  predicate WholeQuoted(y: string) {
    |y| >= 2 && y[0] == '"' && y[|y| - 1] == '"' && Unquoted(y[1..|y| - 1])
  }

  /** What may stand behind an equals sign, up to the comma behind the pair. */
  predicate IsPiece(y: string, m: nat) {
    || Unquoted(y)
    || Tokenish(y)
    || WholeQuoted(y)
    || (|y| >= 2 && Closed(y) && (if y[0] == '"' then |y| <= m + 2 else |y| < m))
  }

  lemma ClosedSuffix(w: string, k: nat)
    requires Closed(w) && k <= |w|
    ensures Closed(w[k..])
  {
  }

  lemma {:induction false} ClosedIsTrimmed(y: string)
    requires Closed(y) && |y| >= 2
    ensures |TrimStart(y)| >= 2 && Closed(TrimStart(y)) && |TrimStart(y)| <= |y|
    ensures y[0] == '"' ==> TrimStart(y) == y
  {
    if IsSpace(y[0]) {
      assert |y| > 2;
      ClosedSuffix(y, 1);
      ClosedIsTrimmed(y[1..]);
    }
  }

  lemma {:induction false} TrimStartAppend(a: string, b: string)
    requires b == "" || !IsSpace(b[0])
    ensures TrimStart(a + b) == TrimStart(a) + b
  {
    if a == "" {
      assert a + b == b;
    } else if IsSpace(a[0]) {
      assert (a + b)[1..] == a[1..] + b;
      TrimStartAppend(a[1..], b);
    }
  }

  /** A quoted value ends at its first quote. */
  lemma QuotedStep(z: string, after: string)
    requires z != "" && z[0] == '"' && '"' in z[1..]
    ensures
      var c := IndexOf(z[1..], '"');
      c + 2 <= |z| && ValueOf(z + after) == Some((z[1..][..c], z[c + 2..] + after))
  {
    var u := z[1..];
    var c := IndexOf(u, '"');
    assert u[..|u|] == u;
    assert (z + after)[1..] == u + after;
    assert u + after == u[..c] + ['"'] + (u[c + 1..] + after);
    IndexAfterPrefix(u[..c], '"', u[c + 1..] + after);
    assert (u + after)[..c] == u[..c] && (u + after)[c + 1..] == z[c + 2..] + after;
  }

  lemma TokenStep(z: string, after: string)
    requires (z != "" ==> z[0] != '"') && (after == "" || after[0] == ',')
    ensures ValueOf(z + after) == Some((Trim(UpToComma(z)), z[|UpToComma(z)|..] + after))
  {
    UpToCommaOfPiece(z, after);
    var c := |UpToComma(z)|;
    assert IndexOf(z + after, ',') == c;
    assert (z + after)[c..] == z[c..] + after;
    if z == "" {
      assert z + after == after;
    }
  }

  lemma WholeQuotedStep(y: string, after: string)
    requires WholeQuoted(y)
    ensures ValueOf(y + after) == Some((y[1..|y| - 1], after))
  {
    var v := y[1..|y| - 1];
    assert y[1..] == v + ['"'] + "";
    IndexAfterPrefix(v, '"', "");
    assert '"' in y[1..] by { assert y[1..][|v|] == '"'; }
    QuotedStep(y, after);
    assert y[1..][..|v|] == v && y[|v| + 2..] + after == after;
  }

  lemma ClosedQuotedStep(z: string, after: string) returns (w: string)
    requires |z| >= 2 && z[0] == '"' && Closed(z)
    ensures ValueOf(z + after).Some? && Unquoted(ValueOf(z + after).value.0)
    ensures ValueOf(z + after).value.1 == w + after && Closed(w) && |w| + 2 <= |z|
  {
    assert '"' in z[1..] by { assert z[1..][|z| - 2] == '"'; }
    QuotedStep(z, after);
    var c := IndexOf(z[1..], '"');
    w := z[c + 2..];
    ClosedSuffix(z, c + 2);
  }

  lemma QuoteIsNoSpace(y: string)
    requires y != "" && y[0] == '"'
    ensures TrimStart(y) == y && !Tokenish(y) && !Unquoted(y)
  {
    assert y[0] in y;
  }

  lemma TokenishIsTrimmed(y: string)
    requires Tokenish(y)
    ensures TrimStart(y) == y && UpToComma(y) == y && Trim(y) == y
  {
    TrimTrimmed(y);
    IndexOfAbsent(y, ',');
  }

  lemma TokenPieceStep(z: string, after: string) returns (behind: bool, w: string)
    requires TrimStart(z) == z && (z != "" ==> z[0] != '"') && (after == "" || after[0] == ',')
    ensures ValueOf(z + after).Some?
    ensures
      var (value, left) := ValueOf(z + after).value;
      && SkipComma(left) == (if behind then SkipComma(after) else w + after)
      && Tokenish(value) && |value| <= |z| && (Unquoted(z) ==> Unquoted(value)) && (Tokenish(z) ==> value == z)
    ensures !behind ==> ',' in z && (Unquoted(z) ==> Unquoted(w))
  {
    TokenStep(z, after);
    TokenIsTokenish(z);
    var x := UpToComma(z);
    TrimIsTrimmed(x);
    if Unquoted(z) {
      TrimKeepsOut(x, '"');
    }
    if Tokenish(z) {
      TokenishIsTrimmed(z);
    }
    hide Trim, TrimStart, ValueOf, Tokenish;
    behind, w := |x| == |z|, "";
    if behind {
      assert z[|x|..] + after == after;
    } else {
      assert z[|x|] == ',' && ',' in z;
      w := z[|x| + 1..];
      assert (z[|x|..] + after)[1..] == w + after;
    }
  }

  lemma QuotedPieceStep(z: string, after: string, m: nat) returns (behind: bool, w: string)
    requires |z| >= 2 && z[0] == '"' && (WholeQuoted(z) || (Closed(z) && |z| <= m + 2))
    ensures ValueOf(z + after).Some?
    ensures
      var (value, left) := ValueOf(z + after).value;
      SkipComma(left) == (if behind then SkipComma(after) else w + after) && Unquoted(value)
    ensures !behind ==> IsRemnant(w, m) && !WholeQuoted(z)
  {
    if WholeQuoted(z) {
      WholeQuotedStep(z, after);
      behind, w := true, "";
    } else {
      w := ClosedQuotedStep(z, after);
      behind := w == "";
      hide ValueOf, WholeQuoted;
      if behind {
        assert w + after == after;
      } else {
        assert w[0] in w;
      }
    }
  }

  lemma PieceStart(y: string, m: nat)
    requires IsPiece(y, m)
    ensures
      var z := TrimStart(y);
      && TrimStart(z) == z && IsSuffix(z, y)
      && (Unquoted(y) ==> Unquoted(z)) && (Tokenish(y) || WholeQuoted(y) ==> z == y)
      && (z != "" && z[0] == '"' ==>
            !Unquoted(y) && !Tokenish(y) && |z| >= 2 && (WholeQuoted(z) || (Closed(z) && |z| <= m + 2)))
      && (Closed(y) && !Tokenish(y) && (z != "" ==> z[0] != '"') ==> Unquoted(y) || |z| < m)
  {
    TrimStartTwice(y);
    TrimStartIsSuffix(y);
    if Closed(y) && |y| >= 2 {
      ClosedIsTrimmed(y);
    }
    if y != "" && y[0] == '"' {
      QuoteIsNoSpace(y);
    }
    if Tokenish(y) {
      TokenishIsTrimmed(y);
    }
  }

  /** The value of a piece, and whether the reader comes out behind it or in the middle, in front of w. */
  lemma PieceStep(y: string, after: string, m: nat) returns (behind: bool, w: string)
    requires IsPiece(y, m) && (after == "" || after[0] == ',')
    ensures ValueOf(TrimStart(y + after)).Some?
    ensures
      var (value, left) := ValueOf(TrimStart(y + after)).value;
      && SkipComma(left) == (if behind then SkipComma(after) else w + after)
      && (Unquoted(value) || |value| < m || (value == y && Tokenish(y)))
      && (Unquoted(y) ==> Unquoted(value)) && (Unquoted(y) || Tokenish(y) ==> Tokenish(value))
    ensures !behind ==> IsRemnant(w, m) && !WholeQuoted(y) && (Unquoted(y) || Tokenish(y) ==> Unquoted(w))
  {
    TrimStartAppend(y, after);
    PieceStart(y, m);
    var z := TrimStart(y);
    hide TrimStart, ValueOf, SkipComma;
    if z != "" && z[0] == '"' {
      behind, w := QuotedPieceStep(z, after, m);
    } else {
      behind, w := TokenPieceStep(z, after);
    }
  }

  /** The first equals sign ends the key. */
  lemma CutAtKey(x: string, y: string)
    requires '=' !in x
    ensures
      Next(x + "=" + y) ==
        match ValueOf(TrimStart(y))
        case None => None
        case Some((value, after)) => Some(Step(Lower(Trim(x)), value, SkipComma(after)))
  {
    var s := x + "=" + y;
    assert s == x + ['='] + y;
    IndexAfterPrefix(x, '=', y);
    assert s[..|x|] == x && s[|x| + 1..] == y;
  }

  lemma NothingToRead(s: string, p: DigestParams)
    requires '=' !in s && EndsPlain(s)
    ensures ReadPairs(s, p) == Some(p)
  {
    IndexOfAbsent(s, '=');
    CutAtEquals(s, Trim(s), |s|, IndexOf(Trim(s), '='));
    PairsFront(s, p);
    hide ReadPairs, Trim, IndexOf, EndsPlain;
  }

  /** A key behind some rubbish still ends the rubbish. */
  lemma {:induction false} KeyBehind(lead: string, key: string)
    requires IsName(key)
    ensures IsSuffix(key, Lower(Trim(lead + key)))
  {
    assert Lower(key) == key && key != "";
    TrimmedKeepsKey(lead, key);
    assert EndsPlain(lead + key);
    hide TrimStart, Trim, Lower, IsName, IsSuffix, EndsPlain;
    PlainTrim(lead + key);
    LowerKeepsSuffix(key, TrimStart(lead + key));
  }

  lemma LowerKeepsSuffix(key: string, r: string)
    requires IsSuffix(key, r) && Lower(key) == key
    ensures IsSuffix(key, Lower(r))
  {
    var l := Lower(r);
    var d := |r| - |key|;
    assert forall i :: 0 <= i < |key| ==> l[d + i] == LowerChar(r[d + i]) && r[d + i] == key[i];
    assert forall i :: 0 <= i < |key| ==> Lower(key)[i] == LowerChar(key[i]);
    assert l[d..] == key;
  }

  lemma {:induction false} TrimmedKeepsKey(lead: string, key: string)
    requires key != "" && !IsSpace(key[0])
    ensures IsSuffix(key, TrimStart(lead + key))
  {
    if lead == "" {
      assert lead + key == key;
    } else if IsSpace(lead[0]) {
      assert (lead + key)[1..] == lead[1..] + key;
      TrimmedKeepsKey(lead[1..], key);
    }
  }

  function ShorterThan(m: nat): string -> bool {
    x => Unquoted(x) || |x| < m
  }

  /** Quoted keys hold quotes only in values under m characters; strictly, the algorithm also reads like a token. */
  predicate Fine(p: DigestParams, m: nat, strict: bool) {
    Others(p, ShorterThan(m)) && (strict ==> Algorithm(p, Tokenish))
  }

  predicate PairFits(pair: Pair, m: nat, strict: bool) {
    && IsName(pair.key)
    && (if pair.Quoted? then
          && (Unquoted(pair.value)
              || (!strict && Ends(pair.value) && ',' !in pair.value && |pair.value| <= m))
          && !IsSuffix(pair.key, "algorithm")
        else Unquoted(pair.value) || (Tokenish(pair.value) && |pair.key| >= 9))
  }

  predicate PairsFit(pairs: seq<Pair>, m: nat, strict: bool) {
    forall i :: 0 <= i < |pairs| ==> PairFits(pairs[i], m, strict)
  }

  lemma FineStep(p: DigestParams, key: string, value: string, m: nat, strict: bool)
    requires Fine(p, m, strict)
    requires Unquoted(value) || |value| < m || |key| >= 9
    requires strict ==> Tokenish(value) || key != "algorithm"
    ensures Fine(Assign(p, key, value), m, strict)
  {
    AssignKeeps(p, key, value, ShorterThan(m));
    AssignKeeps(p, key, value, Tokenish);
    hide Assign, Others, Algorithm;
  }

  lemma FitIsPiece(pair: Pair, m: nat, strict: bool)
    requires PairFits(pair, m, strict)
    ensures IsPiece(ValueText(pair), m)
    ensures pair.Token? || (!Tokenish(ValueText(pair)) && !Unquoted(ValueText(pair)))
    ensures strict && pair.Quoted? ==> WholeQuoted(ValueText(pair))
  {
    var y := ValueText(pair);
    if pair.Quoted? {
      assert y[1..|y| - 1] == pair.value;
      QuoteIsNoSpace(y);
      if !Unquoted(pair.value) {
        assert pair.value != "";
      }
    }
  }

  /** The value behind an equals sign, and what the reader goes on with. */
  lemma ValueStep(x: string, y: string, after: string, m: nat, p: DigestParams) returns (behind: bool, w: string)
    requires '=' !in x && IsPiece(y, m) && (after == "" || after[0] == ',')
    requires EndsPlain(x + "=" + (y + after))
    ensures
      var s := x + "=" + (y + after);
      && Next(s).Some? && Next(s).value.key == Lower(Trim(x))
      && var rest, value := Next(s).value.rest, Next(s).value.value;
      && |rest| < |s| && EndsPlain(rest)
      && ReadPairs(s, p) == ReadPairs(rest, Assign(p, Next(s).value.key, value))
      && rest == (if behind then SkipComma(after) else w + after)
      && (Unquoted(value) || |value| < m || (value == y && Tokenish(y)))
      && (Unquoted(y) ==> Unquoted(value)) && (Unquoted(y) || Tokenish(y) ==> Tokenish(value))
    ensures !behind ==> IsRemnant(w, m) && !WholeQuoted(y) && (Unquoted(y) || Tokenish(y) ==> Unquoted(w))
  {
    behind, w := PieceStep(y, after, m);
    CutAtKey(x, y + after);
    hide Next, ValueOf, TrimStart, EndsPlain, Assign, ReadPairs, IsRemnant, Lower, Trim, IsPiece, Tokenish, SkipComma;
    NextIsRead(x + "=" + (y + after), p);
    RestShortens(x + "=" + (y + after));
  }

  /** What the reader goes on with behind a value. */
  function Left(behind: bool, w: string, after: string): string {
    if behind then SkipComma(after) else w + after
  }

  /** Behind its key a value does no harm. */
  predicate Harmless(key: string, y: string, m: nat, strict: bool) {
    && IsPiece(y, m)
    && (Unquoted(y) || |y| < m || |key| >= 9 || !Tokenish(y))
    && (strict ==> Unquoted(y) || Tokenish(y) || (WholeQuoted(y) && key != "algorithm"))
  }

  lemma FineValueStep(x: string, y: string, after: string, m: nat, strict: bool, p: DigestParams)
    returns (behind: bool, w: string, next: DigestParams)
    requires '=' !in x && Harmless(Lower(Trim(x)), y, m, strict) && Fine(p, m, strict)
    requires (after == "" || after[0] == ',') && EndsPlain(x + "=" + (y + after))
    ensures Fine(next, m, strict) && EndsPlain(Left(behind, w, after))
    ensures |Left(behind, w, after)| < |x + "=" + (y + after)|
    ensures ReadPairs(x + "=" + (y + after), p) == ReadPairs(Left(behind, w, after), next)
    ensures !behind ==> IsRemnant(w, m) && (strict ==> Unquoted(w))
  {
    behind, w := ValueStep(x, y, after, m, p);
    var step := Next(x + "=" + (y + after)).value;
    hide Next, ReadPairs, Assign, Fine, Tokenish, EndsPlain, IsPiece, IsRemnant, WholeQuoted, Lower, Trim, SkipComma;
    next := Assign(p, step.key, step.value);
    FineStep(p, step.key, step.value, m, strict);
  }

  lemma AfterIsComma(rest: seq<Pair>)
    ensures After(rest) == "" || After(rest)[0] == ','
    ensures SkipComma(After(rest)) == if rest == [] then "" else " " + PairsText(rest)
  {
    hide PairsText;
    if rest != [] {
      assert (", " + PairsText(rest))[1..] == " " + PairsText(rest);
    }
  }

  lemma FitIsHarmless(lead: string, pair: Pair, m: nat, strict: bool)
    requires PairFits(pair, m, strict)
    ensures Harmless(Lower(Trim(lead + pair.key)), ValueText(pair), m, strict)
  {
    FitIsPiece(pair, m, strict);
    KeyBehind(lead, pair.key);
    hide IsPiece, Tokenish, Lower, Trim, IsName, WholeQuoted;
  }

  lemma FirstPairFits(pairs: seq<Pair>, m: nat, strict: bool)
    requires pairs != [] && PairsFit(pairs, m, strict)
    ensures PairFits(pairs[0], m, strict) && PairsFit(pairs[1..], m, strict) && '=' !in pairs[0].key
  {
    assert PairFits(pairs[0], m, strict);
  }

  lemma FirstPairText(lead: string, pairs: seq<Pair>)
    requires pairs != []
    ensures lead + PairsText(pairs) == (lead + pairs[0].key) + "=" + (ValueText(pairs[0]) + After(pairs[1..]))
  {
    PairsTextIs(pairs);
    hide PairsText, ValueText, After;
    KeyTakesLead(lead, pairs[0].key, ValueText(pairs[0]) + After(pairs[1..]));
  }

  lemma KeyTakesLead(lead: string, key: string, t: string)
    ensures lead + (key + "=" + t) == (lead + key) + "=" + t
  {
  }

  /** Reading printed pairs behind some rubbish. */
  lemma {:induction false} PairsKeepFine(lead: string, pairs: seq<Pair>, m: nat, strict: bool, p: DigestParams)
    requires '=' !in lead && PairsFit(pairs, m, strict) && Fine(p, m, strict)
    requires EndsPlain(lead + PairsText(pairs)) && ReadPairs(lead + PairsText(pairs), p).Some?
    ensures Fine(ReadPairs(lead + PairsText(pairs), p).value, m, strict)
    decreases |lead + PairsText(pairs)|, 0
  {
    if pairs == [] {
      NothingToRead(lead + PairsText(pairs), p);
    } else {
      FirstPairFits(pairs, m, strict);
      FirstPairText(lead, pairs);
      FitIsHarmless(lead, pairs[0], m, strict);
      AfterIsComma(pairs[1..]);
      hide ReadPairs, PairsText, After, ValueText, Fine, PairsFit, PairFits, EndsPlain, IsRemnant, Lower, Trim, Left;
      hide Harmless;
      var behind, w, next :=
        FineValueStep(lead + pairs[0].key, ValueText(pairs[0]), After(pairs[1..]), m, strict, p);
      GoOn(behind, w, pairs[1..], m, strict, next);
    }
  }

  lemma {:induction false} GoOn(
    behind: bool, w: string, rest: seq<Pair>, m: nat, strict: bool, p: DigestParams)
    requires PairsFit(rest, m, strict) && Fine(p, m, strict)
    requires !behind ==> IsRemnant(w, m) && (strict ==> Unquoted(w))
    requires EndsPlain(Left(behind, w, After(rest))) && ReadPairs(Left(behind, w, After(rest)), p).Some?
    ensures Fine(ReadPairs(Left(behind, w, After(rest)), p).value, m, strict)
    decreases |Left(behind, w, After(rest))|, 2
  {
    AfterIsComma(rest);
    hide ReadPairs, PairsText, After, Fine, PairsFit, EndsPlain, IsRemnant, SkipComma;
    if !behind {
      RemnantKeepsFine(w, rest, m, strict, p);
    } else if rest == [] {
      NothingToRead("", p);
    } else {
      PairsKeepFine(" ", rest, m, strict, p);
    }
  }

  lemma {:induction false} RemnantKeepsFine(w: string, rest: seq<Pair>, m: nat, strict: bool, p: DigestParams)
    requires PairsFit(rest, m, strict) && Fine(p, m, strict)
    requires IsRemnant(w, m) && (strict ==> Unquoted(w))
    requires EndsPlain(w + After(rest)) && ReadPairs(w + After(rest), p).Some?
    ensures Fine(ReadPairs(w + After(rest), p).value, m, strict)
    decreases |w + After(rest)|, 1
  {
    RemnantIsCut(w, rest);
    hide ReadPairs, PairsText, After, Fine, PairsFit, EndsPlain, IsRemnant, IndexOf;
    if IndexOf(w, '=') < |w| {
      KeyInRemnant(w, IndexOf(w, '='), rest, m, strict, p);
    } else if rest == [] {
      NothingToRead(w + After(rest), p);
    } else {
      PairsKeepFine(w + ", ", rest, m, strict, p);
    }
  }

  lemma {:induction false} KeyInRemnant(
    w: string, e: nat, rest: seq<Pair>, m: nat, strict: bool, p: DigestParams)
    requires PairsFit(rest, m, strict) && Fine(p, m, strict)
    requires IsRemnant(w, m) && (strict ==> Unquoted(w))
    requires EndsPlain(w + After(rest)) && ReadPairs(w + After(rest), p).Some?
    requires e < |w| && w[e] == '=' && '=' !in w[..e]
    requires w + After(rest) == w[..e] + "=" + (w[e + 1..] + After(rest))
    ensures Fine(ReadPairs(w + After(rest), p).value, m, strict)
    decreases |w + After(rest)|, 0
  {
    RemnantIsHarmless(w, e, Lower(Trim(w[..e])), m, strict);
    AfterIsComma(rest);
    hide ReadPairs, After, Fine, PairsFit, EndsPlain, IsRemnant, Lower, Trim, Left, Harmless, PairsText, SkipComma;
    var behind, w', next := FineValueStep(w[..e], w[e + 1..], After(rest), m, strict, p);
    GoOn(behind, w', rest, m, strict, next);
  }

  lemma RemnantIsCut(w: string, rest: seq<Pair>)
    ensures
      var e := IndexOf(w, '=');
      && (e < |w| ==> '=' !in w[..e] && w + After(rest) == w[..e] + "=" + (w[e + 1..] + After(rest)))
      && (e == |w| && rest == [] ==> '=' !in w + After(rest))
      && (e == |w| && rest != [] ==> '=' !in w + ", " && w + After(rest) == (w + ", ") + PairsText(rest))
  {
    hide PairsText, IndexOf;
    var e := IndexOf(w, '=');
    if e == |w| {
      assert w[..|w|] == w;
      if rest != [] {
        Associate(w, ", ", PairsText(rest));
      }
    } else {
      Split(w, e, After(rest));
    }
  }

  lemma Associate(a: string, b: string, c: string)
    ensures a + (b + c) == (a + b) + c
  {
  }

  lemma Split(w: string, e: nat, after: string)
    requires e < |w| && w[e] == '='
    ensures w + after == w[..e] + "=" + (w[e + 1..] + after)
  {
  }

  lemma RemnantIsHarmless(w: string, e: nat, key: string, m: nat, strict: bool)
    requires IsRemnant(w, m) && e < |w| && w[e] == '=' && (strict ==> Unquoted(w))
    ensures Harmless(key, w[e + 1..], m, strict)
  {
    if !Unquoted(w) {
      ClosedSuffix(w, e + 1);
    }
    hide Tokenish, WholeQuoted;
  }

  // --- The built header ---

  /** What is printed; the algorithm is the one named. */
  datatype Values = Values(
    username: string, realm: string, nonce: string, uri: string, response: string, algorithm: string,
    cnonce: Option<string>)
  {
    function Expected(): DigestParams {
      DigestParams(
        realm, nonce, username, uri, response, Some(algorithm), None,
        if cnonce.Some? then Some("auth") else None, if cnonce.Some? then Some("00000001") else None, cnonce)
    }

    function Front(): seq<Pair> {
      [Quoted("username", username), Quoted("realm", realm), Quoted("nonce", nonce), Quoted("uri", uri),
       Quoted("response", response)]
    }

    function Tail(): seq<Pair> {
      match cnonce
      case None => []
      case Some(c) => [Token("qop", "auth"), Token("nc", "00000001"), Quoted("cnonce", c)]
    }

    /** Trimming the header takes the spaces off an algorithm at its end. */
    function Named(): string {
      if cnonce.Some? then algorithm else TrimEnd(algorithm)
    }

    function Pairs(): seq<Pair> {
      Front() + ([Token("algorithm", Named())] + Tail())
    }

    /** The pairs that are printed read as what they say. */
    predicate Returns() {
      EndsPlain(PairsText(Pairs())) && ReadPairs(PairsText(Pairs()), NO_PARAMS) == Some(Expected())
    }
  }

  lemma ReturnedAreReadable(v: Values)
    requires v.Returns()
    ensures Others(v.Expected(), Readable) && Readable(v.algorithm)
  {
    hide ReadPairs, PairsText, Readable, EndsPlain;
    assert Readable("") by { EmptyIsReadable(); }
    FieldsAreReadable(PairsText(v.Pairs()), NO_PARAMS);
  }

  lemma EmptyIsReadable()
    ensures Readable("")
  {
  }

  lemma TokenIsReadable(v: Values)
    requires Readable(v.algorithm)
    ensures Unquoted(v.Named()) || (Tokenish(v.Named()) && v.Named() == v.algorithm)
  {
    TrimEndIsPrefix(v.algorithm);
  }

  lemma ConstantsAreReadable()
    ensures Unquoted("auth") && Unquoted("00000001")
  {
  }

  lemma UnquotedFits(s: string)
    requires Unquoted(s)
    ensures Readable(s) && Ends(s)
  {
  }

  lemma PairsArePrinted(v: Values)
    requires Others(v.Expected(), Readable) && Readable(v.algorithm)
    ensures ArePrinted(v.Pairs()) && ArePrinted(v.Tail()) && TokensEnd(v.Tail()) && TokensEnd(v.Front())
    ensures Ends(v.Named()) ==> TokensEnd(v.Pairs())
  {
    NamesAreNames();
    TokenIsReadable(v);
    ConstantsAreReadable();
    UnquotedFits("auth");
    UnquotedFits("00000001");
    if Unquoted(v.Named()) {
      UnquotedFits(v.Named());
    }
    hide Readable, Ends, Unquoted, Tokenish, Trimmed, Lower;
  }

  lemma NearAtEnd(u: string)
    requires Near(u, -1)
    ensures Near(u, |u|)
  {
    hide TokenEnds;
    forall e | 0 <= e < |u| && u[e] == '='
      ensures TokenEnds(u[e + 1..])
    {
      assert |UpToComma(u[e + 1..])| <= |u| - e - 1;
    }
  }

  lemma TailIsNear(v: Values)
    requires Others(v.Expected(), Readable) && Readable(v.algorithm)
    ensures Near(After(v.Tail()), -1)
  {
    PairsArePrinted(v);
    hide ArePrinted, TokensEnd, Near, PairsText, Readable;
    assert v.Tail() + [] == v.Tail();
    PairsAreNear(v.Tail(), [], -1);
    AfterIsNear(v.Tail(), -1);
  }

  lemma BackIsNear(v: Values)
    requires Others(v.Expected(), Readable) && Readable(v.algorithm)
    ensures Near(PairsText([Token("algorithm", v.Named())] + v.Tail()), |After(v.Tail())|)
  {
    PairsArePrinted(v);
    TailIsNear(v);
    NearAtEnd(After(v.Tail()));
    TokenIsReadable(v);
    if Unquoted(v.Named()) {
      UnquotedFits(v.Named());
    }
    hide TokensEnd, Near, PairsText, Readable, After;
    var back := [Token("algorithm", v.Named())] + v.Tail();
    assert back[1..] == v.Tail();
    assert ArePrinted(back);
    OnePairIsNear(back, |After(v.Tail())|, true);
  }

  /** Whatever comes back holds no quote or ends in one. */
  lemma ReturnedEnd(v: Values)
    requires v.Returns()
    ensures Others(v.Expected(), Ends)
  {
    ReturnedAreReadable(v);
    PairsArePrinted(v);
    TokenIsReadable(v);
    var n := |After(v.Tail())|;
    var back := [Token("algorithm", v.Named())] + v.Tail();
    BackIsNear(v);
    hide ReadPairs, PairsText, Near, ArePrinted, TokensEnd, Readable, Tokenish, EndsPlain, After;
    assert Others(NO_PARAMS, Ends) && Algorithm(NO_PARAMS, Ends);
    if Ends(v.Named()) {
      assert v.Pairs() + [] == v.Pairs();
      PairsAreNear(v.Pairs(), [], -1);
      EndsAreKept(PairsText(v.Pairs()), NO_PARAMS);
    } else {
      assert v.Named() == v.algorithm by {
        if Unquoted(v.Named()) {
          UnquotedFits(v.Named());
        }
      }
      PairsAreNear(v.Front(), back, n);
      NearEndsAreKept(PairsText(v.Pairs()), n, NO_PARAMS);
      assert !Algorithm(v.Expected(), Ends);
    }
  }

  lemma NoKeyEndsAlgorithm()
    ensures !IsSuffix("username", "algorithm") && !IsSuffix("realm", "algorithm") && !IsSuffix("nonce", "algorithm")
    ensures !IsSuffix("uri", "algorithm") && !IsSuffix("response", "algorithm") && !IsSuffix("cnonce", "algorithm")
  {
    assert "algorithm"[1..][7] == 'm' && "algorithm"[4..][0] == 'r' && "algorithm"[4..][1] == 'i';
    assert "algorithm"[4..][4] == 'm' && "algorithm"[6..][2] == 'm' && "algorithm"[3..][5] == 'm';
  }

  lemma QuotedFits(key: string, value: string, m: nat, strict: bool)
    requires IsName(key) && !IsSuffix(key, "algorithm")
    requires Unquoted(value) || (!strict && Readable(value) && Ends(value) && |value| <= m)
    ensures PairFits(Quoted(key, value), m, strict)
  {
    hide IsName, IsSuffix, Trimmed;
  }

  lemma TokenFits(key: string, value: string, m: nat, strict: bool)
    requires IsName(key) && (Unquoted(value) || (Tokenish(value) && |key| >= 9))
    ensures PairFits(Token(key, value), m, strict)
  {
  }

  lemma TailFits(v: Values, m: nat, strict: bool)
    requires v.cnonce.Some? ==> PairFits(Quoted("cnonce", v.cnonce.value), m, strict)
    ensures PairsFit(v.Tail(), m, strict)
  {
    NamesAreNames();
    ConstantsAreReadable();
    TokenFits("qop", "auth", m, strict);
    TokenFits("nc", "00000001", m, strict);
    hide IsName, Unquoted, PairFits;
  }

  /** What a value printed in quotes must be. */
  function Fitting(m: nat, strict: bool): string -> bool {
    x => Unquoted(x) || (!strict && Readable(x) && Ends(x) && |x| <= m)
  }

  lemma FrontFits(v: Values, m: nat, strict: bool)
    requires Others(v.Expected(), Fitting(m, strict))
    ensures PairsFit(v.Front(), m, strict)
    ensures v.cnonce.Some? ==> PairFits(Quoted("cnonce", v.cnonce.value), m, strict)
  {
    NamesAreNames();
    NoKeyEndsAlgorithm();
    hide IsName, IsSuffix, Unquoted, Readable, Ends;
    QuotedFits("username", v.username, m, strict);
    QuotedFits("realm", v.realm, m, strict);
    QuotedFits("nonce", v.nonce, m, strict);
    QuotedFits("uri", v.uri, m, strict);
    QuotedFits("response", v.response, m, strict);
    if v.cnonce.Some? {
      QuotedFits("cnonce", v.cnonce.value, m, strict);
    }
    hide PairFits;
  }

  lemma FitTogether(a: seq<Pair>, b: seq<Pair>, m: nat, strict: bool)
    requires PairsFit(a, m, strict) && PairsFit(b, m, strict)
    ensures PairsFit(a + b, m, strict)
  {
    hide PairFits;
  }

  lemma AllFit(v: Values, m: nat, strict: bool)
    requires Others(v.Expected(), Fitting(m, strict)) && Readable(v.algorithm)
    ensures PairsFit(v.Pairs(), m, strict)
  {
    FrontFits(v, m, strict);
    TailFits(v, m, strict);
    TokenIsReadable(v);
    NamesAreNames();
    TokenFits("algorithm", v.Named(), m, strict);
    assert PairsFit([Token("algorithm", v.Named())], m, strict);
    hide IsName, Unquoted, Readable, Tokenish, PairsFit, Others;
    FitTogether([Token("algorithm", v.Named())], v.Tail(), m, strict);
    FitTogether(v.Front(), [Token("algorithm", v.Named())] + v.Tail(), m, strict);
  }

  /** The values of printed pairs that fit are kept fine. */
  lemma ReturnedAreFine(v: Values, m: nat, strict: bool)
    requires v.Returns() && Others(v.Expected(), Fitting(m, strict)) && Readable(v.algorithm)
    ensures Fine(v.Expected(), m, strict)
  {
    AllFit(v, m, strict);
    hide ReadPairs, PairsText, PairsFit, Readable, Ends, EndsPlain;
    assert Fine(NO_PARAMS, m, strict);
    assert "" + PairsText(v.Pairs()) == PairsText(v.Pairs());
    PairsKeepFine("", v.Pairs(), m, strict, NO_PARAMS);
  }

  /** No returned value holds a quote: it could only be read out of a longer one that does. */
  lemma {:induction false} ReturnedAreUnquoted(v: Values, m: nat)
    requires v.Returns() && Others(v.Expected(), Readable) && Others(v.Expected(), Ends) && Readable(v.algorithm)
    requires Others(v.Expected(), ShorterThan(m + 1))
    ensures Others(v.Expected(), Unquoted)
    decreases m
  {
    if m == 0 {
      EmptyIsUnquoted(v);
    } else {
      hide ReadPairs, PairsText, Readable, Ends, EndsPlain;
      assert Others(v.Expected(), Fitting(m, false));
      ReturnedAreFine(v, m, false);
      ReturnedAreUnquoted(v, m - 1);
    }
  }

  lemma EmptyIsUnquoted(v: Values)
    requires Others(v.Expected(), ShorterThan(1))
    ensures Others(v.Expected(), Unquoted)
  {
  }

  /** What comes back: quoted values without quotes, and an algorithm that is a token. */
  lemma ReturnedAreGood(v: Values)
    requires v.Returns() && v.algorithm != ""
    ensures Others(v.Expected(), Unquoted) && IsToken(v.algorithm)
  {
    ReturnedAreReadable(v);
    ReturnedEnd(v);
    hide ReadPairs, PairsText, EndsPlain, Readable, Ends;
    var m := |v.username| + |v.realm| + |v.nonce| + |v.uri| + |v.response|
      + (if v.cnonce.Some? then |v.cnonce.value| else 0);
    assert Others(v.Expected(), ShorterThan(m + 1));
    ReturnedAreUnquoted(v, m);
    hide Unquoted;
    assert Others(v.Expected(), Fitting(0, true));
    ReturnedAreFine(v, 0, true);
    assert Algorithm(v.Expected(), Tokenish);
  }

  lemma {:induction false} PairsTextLast(front: seq<Pair>, pair: Pair)
    requires front != []
    ensures PairsText(front + [pair]) == PairsText(front) + ", " + PairText(pair)
  {
    var all := front + [pair];
    if |front| == 1 {
      assert all[1..] == [pair];
    } else {
      assert all[1..] == front[1..] + [pair];
      PairsTextLast(front[1..], pair);
    }
  }

  lemma PairsTextStart(pairs: seq<Pair>)
    requires pairs != [] && pairs[0].key != ""
    ensures PairsText(pairs) != "" && PairsText(pairs)[0] == pairs[0].key[0]
  {
    PairsTextIs(pairs);
    hide PairsText;
  }

  lemma TrimBehindEquals(x: string, value: string)
    requires x != "" && !IsSpace(x[0]) && x[|x| - 1] == '='
    ensures Trim(x + value) == x + TrimEnd(value) && EndsPlain(x + TrimEnd(value))
  {
    assert TrimStart(x + value) == x + value;
    TrimEndBehind(x, value);
    TrimEndTrims(x + value);
  }

  lemma TokenAtEnd(front: seq<Pair>, key: string, value: string)
    requires front != []
    ensures PairsText(front + [Token(key, value)]) == (PairsText(front) + (", " + key + "=")) + value
  {
    PairsTextLast(front, Token(key, value));
    hide PairsText;
    assert ", " + (key + "=" + value) == (", " + key + "=") + value;
    Associate(PairsText(front), ", " + key + "=", value);
    assert PairsText(front) + ", " + (key + "=" + value) == PairsText(front) + (", " + (key + "=" + value));
  }

  /** The trimmed header, without client nonce. */
  lemma BareHeader(front: seq<Pair>, key: string, value: string)
    requires front != [] && front[0].key != "" && !IsSpace(front[0].key[0])
    ensures
      var text := PairsText(front + [Token(key, TrimEnd(value))]);
      Trim(PairsText(front + [Token(key, value)])) == text && EndsPlain(text)
  {
    PairsTextStart(front);
    TokenAtEnd(front, key, value);
    TokenAtEnd(front, key, TrimEnd(value));
    hide PairsText, Trim, TrimEnd, EndsPlain, IsSpace;
    TrimBehindEquals(PairsText(front) + (", " + key + "="), value);
  }

  /** The trimmed header, with client nonce. */
  lemma QuotedHeader(front: seq<Pair>, key: string, value: string)
    requires front != [] && front[0].key != "" && !IsSpace(front[0].key[0])
    ensures var text := PairsText(front + [Quoted(key, value)]); Trim(text) == text && EndsPlain(text)
  {
    var text := PairsText(front + [Quoted(key, value)]);
    PairsTextStart(front + [Quoted(key, value)]);
    PairsTextLast(front, Quoted(key, value));
    hide PairsText;
    TrimTrimmed(text);
  }

  lemma HeaderText(v: Values)
    ensures
      var printed := v.Front() + ([Token("algorithm", v.algorithm)] + v.Tail());
      Trim(PairsText(printed)) == PairsText(v.Pairs()) && EndsPlain(PairsText(v.Pairs()))
  {
    var printed := v.Front() + ([Token("algorithm", v.algorithm)] + v.Tail());
    hide PairsText, EndsPlain, Trim;
    if v.cnonce.Some? {
      var front := v.Front() + [Token("algorithm", v.algorithm), Token("qop", "auth"), Token("nc", "00000001")];
      assert printed == front + [Quoted("cnonce", v.cnonce.value)];
      QuotedHeader(front, "cnonce", v.cnonce.value);
    } else {
      assert printed == v.Front() + [Token("algorithm", v.algorithm)];
      assert v.Pairs() == v.Front() + [Token("algorithm", TrimEnd(v.algorithm))];
      BareHeader(v.Front(), "algorithm", v.algorithm);
    }
  }

  lemma PrintedAsPairs(v: Values, algorithm: string)
    requires v.algorithm == Named(algorithm)
    ensures v.algorithm != ""
    ensures
      var header := Build(v.username, v.realm, v.nonce, v.uri, v.response, algorithm, v.cnonce);
      && "Digest " <= header
      && header[7..] == PairsText(v.Front() + ([Token("algorithm", v.algorithm)] + v.Tail()))
  {
    var text := PairsText(v.Front() + ([Token("algorithm", v.algorithm)] + v.Tail()));
    assert v.Front() + ([Token("algorithm", v.algorithm)] + v.Tail())
      == Printed(v.username, v.realm, v.nonce, v.uri, v.response, algorithm, v.cnonce);
    hide PairsText;
    assert ("Digest " + text)[7..] == text;
  }

  /**
   * The built header reads back exactly if realm and nonce are not empty, no quoted value holds a quote, and the
   * algorithm, which is printed bare, is a token.
   */
  lemma DigestRoundTrip(
    username: string, realm: string, nonce: string, uri: string, response: string, algorithm: string,
    cnonce: Option<string>)
    ensures
      Parse(Build(username, realm, nonce, uri, response, algorithm, cnonce))
      == Good(DigestParams(
        realm, nonce, username, uri, response, Some(Named(algorithm)), None,
        if cnonce.Some? then Some("auth") else None, if cnonce.Some? then Some("00000001") else None, cnonce))
      <==>
      && Unquoted(username) && IsWord(realm) && IsWord(nonce) && Unquoted(uri) && Unquoted(response)
      && IsToken(Named(algorithm)) && (cnonce.Some? ==> Unquoted(cnonce.value))
  {
    var v := Values(username, realm, nonce, uri, response, Named(algorithm), cnonce);
    var header := Build(username, realm, nonce, uri, response, algorithm, cnonce);
    HeaderText(v);
    PrintedAsPairs(v, algorithm);
    hide Build, PairsText, ReadPairs, IsToken, Unquoted, Named, EndsPlain, Trim;
    if Parse(header) == Good(v.Expected()) {
      assert v.Returns();
      ReturnedAreGood(v);
    }
    if
      && Unquoted(username) && IsWord(realm) && IsWord(nonce) && Unquoted(uri) && Unquoted(response)
      && IsToken(Named(algorithm)) && (cnonce.Some? ==> Unquoted(cnonce.value))
    {
      hide Parse;
      GoodValuesReadBack(username, realm, nonce, uri, response, algorithm, cnonce);
    }
  }
}
