/** The Note header: a keyed digest over the parts of a request, printed, parsed and checked. */
module Note {
  import opened Results
  import opened Text

  /** SM3 and base64 as seen by their callers: octet strings in, octet strings or text out. */
  datatype Library = Library(hash: string -> string, encode: string -> string, decode: string -> Option<string>)

  datatype VkekEncoding = Raw | Base64String

  datatype Request = Request(method_: string, from: string, to: string, callId: string, date: string, body: string)

  /** The key as it enters the digest. */
  function KeyText(lib: Library, vkek: string, enc: VkekEncoding): string {
    if enc == Raw then vkek else lib.encode(vkek)
  }

  /** The octets hashed: the request's parts around the key, with nothing between them. */
  function DigestInput(lib: Library, r: Request, vkek: string, enc: VkekEncoding): string {
    r.method_ + r.from + r.to + r.callId + r.date + KeyText(lib, vkek, enc) + r.body
  }

  function NoteDigest(lib: Library, r: Request, vkek: string, enc: VkekEncoding): string {
    lib.hash(DigestInput(lib, r, vkek, enc))
  }

  function Build(lib: Library, r: Request, vkek: string, enc: VkekEncoding): string {
    "Digest nonce=\"" + lib.encode(NoteDigest(lib, r, vkek, enc)) + "\",algorithm=SM3"
  }

  function StripPrefix(s: string, prefix: string): Option<string> {
    if prefix <= s then Some(s[|prefix|..]) else None
  }

  /** The first part that names an algorithm, or the empty string. */
  function Algorithm(parts: seq<string>): string {
    if parts == [] then ""
    else
      match StripPrefix(Trim(parts[0]), "algorithm=")
      case Some(a) => a
      case None => Algorithm(parts[1..])
  }

  /** The first part with a non-empty nonce; then an algorithm must be named somewhere. */
  function NonceAmong(parts: seq<string>, all: seq<string>): Option<(string, string)> {
    if parts == [] then None
    else
      match StripPrefix(Trim(parts[0]), "nonce=")
      case None => NonceAmong(parts[1..], all)
      case Some(v) =>
        if TrimQuotes(v) == "" then NonceAmong(parts[1..], all)
        else if Algorithm(all) == "" then None
        else Some((TrimQuotes(v), Algorithm(all)))
  }

  function Parse(note: string): Option<(string, string)> {
    match StripPrefix(Trim(note), "Digest ")
    case None => None
    case Some(rest) => NonceAmong(SplitOn(rest, ','), SplitOn(rest, ','))
  }

  method ParseHeader(note: string) returns (parsed: Option<(string, string)>)
    ensures parsed == Parse(note)
  {
    var rest := StripPrefix(Trim(note), "Digest ");
    if rest.None? {
      return None;
    }
    var parts := SplitOn(rest.value, ',');
    var i := 0;
    assert parts[0..] == parts;
    while i < |parts|
      invariant 0 <= i <= |parts|
      invariant NonceAmong(parts[i..], parts) == NonceAmong(parts, parts)
    {
      assert parts[i..][1..] == parts[i + 1..];
      var v := StripPrefix(Trim(parts[i]), "nonce=");
      if v.Some? {
        var nonce := TrimQuotes(v.value);
        if nonce != "" {
          var algo := Algorithm(parts);
          return if algo == "" then None else Some((nonce, algo));
        }
      }
      i := i + 1;
    }
    parsed := None;
  }

  /** `eq_ignore_ascii_case` against SM3 */
  predicate NamesSm3(a: string) {
    Upper(a) == "SM3"
  }

  /** The receiver recomputes the digest and compares. */
  predicate Verifies(lib: Library, note: string, r: Request, vkek: string, enc: VkekEncoding) {
    match Parse(note)
    case None => false
    case Some((nonce, algorithm)) =>
      NamesSm3(algorithm) && lib.decode(nonce) == Some(NoteDigest(lib, r, vkek, enc))
  }

  /** Base64 text: not empty, and none of the characters the header is cut at. */
  predicate Plain(s: string) {
    s != "" && forall i :: 0 <= i < |s| ==> s[i] != '"' && s[i] != ',' && !IsSpace(s[i])
  }

  /** Digests are encoded as plain text that decodes to the digest again. */
  ghost predicate Base64(lib: Library) {
    forall x :: Plain(lib.encode(lib.hash(x))) && lib.decode(lib.encode(lib.hash(x))) == Some(lib.hash(x))
  }

  ghost predicate CollisionFree(lib: Library) {
    forall x, y :: lib.hash(x) == lib.hash(y) ==> x == y
  }

  lemma QuotedIsTrimmed(n: string)
    requires Plain(n)
    ensures TrimQuotes("\"" + n + "\"") == n
  {
    var s := "\"" + n + "\"";
    assert s[1..] == n + "\"";
    assert (n + "\"")[..|n|] == n;
    assert TrimQuotes(n + "\"") == TrimQuotes(n) == n;
  }

  lemma PrefixIsStripped(prefix: string, s: string)
    ensures StripPrefix(prefix + s, prefix) == Some(s)
  {
    assert (prefix + s)[|prefix|..] == s;
  }

  function NoncePart(n: string): string {
    "nonce=" + ("\"" + n + "\"")
  }

  lemma NoncePartIsWhole(n: string)
    requires Plain(n)
    ensures ',' !in NoncePart(n) && Trim(NoncePart(n)) == NoncePart(n)
    ensures StripPrefix(NoncePart(n), "nonce=") == Some("\"" + n + "\"")
    ensures StripPrefix(NoncePart(n), "algorithm=") == None
  {
    var s := NoncePart(n);
    assert ',' !in n && ',' !in "nonce=" && ',' !in "\"";
    assert s[0] == 'n' && s[|s| - 1] == '"';
    TrimTrimmed(s);
    PrefixIsStripped("nonce=", "\"" + n + "\"");
    assert !("algorithm=" <= s);
  }

  const ALGORITHM_PART := "algorithm=SM3"

  lemma AlgorithmPartIsWhole()
    ensures ',' !in ALGORITHM_PART && Trim(ALGORITHM_PART) == ALGORITHM_PART
    ensures StripPrefix(ALGORITHM_PART, "algorithm=") == Some("SM3")
  {
    assert ALGORITHM_PART == "algorithm=" + "SM3";
    PrefixIsStripped("algorithm=", "SM3");
    TrimTrimmed(ALGORITHM_PART);
  }

  lemma AlgorithmSkips(part: string, rest: seq<string>)
    requires StripPrefix(Trim(part), "algorithm=") == None
    ensures Algorithm([part] + rest) == Algorithm(rest)
  {
    assert ([part] + rest)[1..] == rest;
  }

  lemma PartsAreRead(n: string)
    requires Plain(n)
    ensures SplitOn(NoncePart(n) + "," + ALGORITHM_PART, ',') == [NoncePart(n), ALGORITHM_PART]
    ensures Algorithm([NoncePart(n), ALGORITHM_PART]) == "SM3"
  {
    NoncePartIsWhole(n);
    AlgorithmPartIsWhole();
    hide NoncePart, Trim, StripPrefix;
    assert NoncePart(n) + "," + ALGORITHM_PART == NoncePart(n) + [','] + ALGORITHM_PART;
    SplitOnPrefix(NoncePart(n), ',', ALGORITHM_PART);
    SplitOnWhole(ALGORITHM_PART, ',');
    AlgorithmSkips(NoncePart(n), [ALGORITHM_PART]);
    assert [NoncePart(n)] + [ALGORITHM_PART] == [NoncePart(n), ALGORITHM_PART];
  }

  /** A printed Note parses to the digest it carries. */
  lemma PrintedNoteParses(n: string)
    requires Plain(n)
    ensures Parse("Digest nonce=\"" + n + "\",algorithm=SM3") == Some((n, "SM3"))
  {
    hide Plain, Trim, StripPrefix, SplitOn, TrimQuotes, Algorithm;
    var rest := NoncePart(n) + "," + ALGORITHM_PART;
    var note := "Digest nonce=\"" + n + "\",algorithm=SM3";
    assert note == "Digest " + rest;
    assert note[0] == 'D' && note[|note| - 1] == '3';
    TrimTrimmed(note);
    PrefixIsStripped("Digest ", rest);
    PartsAreRead(n);
    NoncePartIsWhole(n);
    QuotedIsTrimmed(n);
    assert n != "" by { PlainIsNotEmpty(n); }
    assert Parse(note) == NonceAmong([NoncePart(n), ALGORITHM_PART], [NoncePart(n), ALGORITHM_PART]);
  }

  lemma PlainIsNotEmpty(n: string)
    requires Plain(n)
    ensures n != ""
  {
  }

  /**
   * A built Note verifies exactly when the receiver's digest is the sender's; with a collision-free hash, exactly when
   * both hash the same octets.
   */
  lemma NoteVerifies(
    lib: Library, r: Request, vkek: string, enc: VkekEncoding, r': Request, vkek': string, enc': VkekEncoding)
    requires Base64(lib)
    ensures Verifies(lib, Build(lib, r, vkek, enc), r', vkek', enc')
      <==> NoteDigest(lib, r, vkek, enc) == NoteDigest(lib, r', vkek', enc')
    ensures CollisionFree(lib) ==>
      (Verifies(lib, Build(lib, r, vkek, enc), r', vkek', enc')
       <==> DigestInput(lib, r, vkek, enc) == DigestInput(lib, r', vkek', enc'))
  {
    var input := DigestInput(lib, r, vkek, enc);
    assert Plain(lib.encode(lib.hash(input)));
    PrintedNoteParses(lib.encode(lib.hash(input)));
    hide DigestInput, Parse;
  }

  /**
   * With the other parts alike, only the sender's key verifies, in either encoding: the keys enter the digest
   * with one length, and different keys as different text.
   */
  lemma OtherKeyIsRefused(lib: Library, r: Request, vkek: string, vkek': string, enc: VkekEncoding)
    requires Base64(lib) && CollisionFree(lib)
    requires |KeyText(lib, vkek, enc)| == |KeyText(lib, vkek', enc)|
    requires KeyText(lib, vkek, enc) == KeyText(lib, vkek', enc) ==> vkek == vkek'
    ensures Verifies(lib, Build(lib, r, vkek, enc), r, vkek', enc) <==> vkek == vkek'
  {
    NoteVerifies(lib, r, vkek, enc, r, vkek', enc);
    var head, k, k' := r.method_ + r.from + r.to + r.callId + r.date, KeyText(lib, vkek, enc), KeyText(lib, vkek', enc);
    assert DigestInput(lib, r, vkek, enc) == head + k + r.body;
    assert DigestInput(lib, r, vkek', enc) == head + k' + r.body;
    assert (head + k + r.body)[|head|..|head| + |k|] == k;
    assert (head + k' + r.body)[|head|..|head| + |k'|] == k';
  }

  // --- What the digest covers ---

  lemma SevenSlices(a: string, b: string, c: string, d: string, e: string, f: string, g: string)
    ensures
      var s := a + b + c + d + e + f + g;
      var (i, j) := (|a| + |b|, |a| + |b| + |c|);
      var (k, l) := (j + |d|, j + |d| + |e|);
      && |s| == l + |f| + |g|
      && s[..|a|] == a && s[|a|..i] == b && s[i..j] == c && s[j..k] == d && s[k..l] == e
      && s[l..l + |f|] == f && s[l + |f|..] == g
  {
    var s := a + b + c + d + e + f + g;
    assert s == a + b + c + (d + e + f + g);
    assert s[..|a| + |b| + |c|] == a + b + c && s[|a| + |b| + |c|..] == d + e + f + g;
  }

  /** The octets hashed, one part behind the other: method, From, To, Call-ID, Date, key, body. */
  lemma DigestCovers(lib: Library, r: Request, vkek: string, enc: VkekEncoding)
    ensures
      var s := DigestInput(lib, r, vkek, enc);
      var key := if enc == Raw then vkek else lib.encode(vkek);
      var (i, j) := (|r.method_| + |r.from|, |r.method_| + |r.from| + |r.to|);
      var (k, l) := (j + |r.callId|, j + |r.callId| + |r.date|);
      && |s| == l + |key| + |r.body|
      && s[..|r.method_|] == r.method_ && s[|r.method_|..i] == r.from && s[i..j] == r.to && s[j..k] == r.callId
      && s[k..l] == r.date && s[l..l + |key|] == key && s[l + |key|..] == r.body
  {
    SevenSlices(r.method_, r.from, r.to, r.callId, r.date, KeyText(lib, vkek, enc), r.body);
  }

  lemma SameMiddle(head: string, a: string, b: string, tail: string)
    ensures head + a + tail == head + b + tail <==> a == b
  {
    if head + a + tail == head + b + tail {
      assert |a| == |b|;
      assert (head + a + tail)[|head|..|head| + |a|] == a;
      assert (head + b + tail)[|head|..|head| + |b|] == b;
    }
  }

  /** The request with one of its six parts exchanged. */
  datatype Part = MethodPart | FromPart | ToPart | CallIdPart | DatePart | BodyPart

  function With(r: Request, part: Part, v: string): Request {
    match part
    case MethodPart => r.(method_ := v)
    case FromPart => r.(from := v)
    case ToPart => r.(to := v)
    case CallIdPart => r.(callId := v)
    case DatePart => r.(date := v)
    case BodyPart => r.(body := v)
  }

  lemma PartIsCovered(lib: Library, r: Request, part: Part, v: string, vkek: string, enc: VkekEncoding)
    ensures DigestInput(lib, r, vkek, enc) == DigestInput(lib, With(r, part, v), vkek, enc) <==> With(r, part, v) == r
  {
    var k := KeyText(lib, vkek, enc);
    match part {
      case MethodPart => OnePartDiffers("", r.method_, v, r.from, r.to, r.callId, r.date, k, r.body);
      case FromPart => OnePartDiffers(r.method_, r.from, v, "", r.to, r.callId, r.date, k, r.body);
      case ToPart => OnePartDiffers(r.method_ + r.from, r.to, v, "", "", r.callId, r.date, k, r.body);
      case CallIdPart => OnePartDiffers(r.method_ + r.from + r.to, r.callId, v, "", "", "", r.date, k, r.body);
      case DatePart => OnePartDiffers(r.method_ + r.from + r.to + r.callId, r.date, v, "", "", "", "", k, r.body);
      case BodyPart =>
        OnePartDiffers(r.method_ + r.from + r.to + r.callId + r.date + k, r.body, v, "", "", "", "", "", "");
    }
  }

  lemma OnePartDiffers(
    head: string, a: string, b: string, t1: string, t2: string, t3: string, t4: string, t5: string, t6: string)
    ensures head + a + t1 + t2 + t3 + t4 + t5 + t6 == head + b + t1 + t2 + t3 + t4 + t5 + t6 <==> a == b
    ensures "" + a == a && "" + b == b && head + a + "" == head + a && head + b + "" == head + b
  {
    var tail := t1 + t2 + t3 + t4 + t5 + t6;
    assert head + a + t1 + t2 + t3 + t4 + t5 + t6 == head + a + tail;
    assert head + b + t1 + t2 + t3 + t4 + t5 + t6 == head + b + tail;
    SameMiddle(head, a, b, tail);
  }

  /** Exchanging any one part of a request, whatever its length, makes the Note refuse it. */
  lemma OtherPartIsRefused(lib: Library, r: Request, part: Part, v: string, vkek: string, enc: VkekEncoding)
    requires Base64(lib) && CollisionFree(lib)
    ensures Verifies(lib, Build(lib, r, vkek, enc), With(r, part, v), vkek, enc) <==> With(r, part, v) == r
  {
    NoteVerifies(lib, r, vkek, enc, With(r, part, v), vkek, enc);
    PartIsCovered(lib, r, part, v, vkek, enc);
    hide Verifies, DigestInput, With;
  }

  predicate SameLengths(r: Request, s: Request) {
    && |r.method_| == |s.method_| && |r.from| == |s.from| && |r.to| == |s.to| && |r.callId| == |s.callId|
    && |r.date| == |s.date| && |r.body| == |s.body|
  }

  /** With parts of the same lengths no two requests share a Note, so no two parts can change places unseen. */
  lemma OtherRequestIsRefused(lib: Library, r: Request, s: Request, vkek: string, enc: VkekEncoding)
    requires Base64(lib) && CollisionFree(lib) && SameLengths(r, s)
    ensures Verifies(lib, Build(lib, r, vkek, enc), s, vkek, enc) <==> s == r
  {
    NoteVerifies(lib, r, vkek, enc, s, vkek, enc);
    if DigestInput(lib, r, vkek, enc) == DigestInput(lib, s, vkek, enc) {
      SameInputSameRequest(lib, r, s, vkek, enc);
    }
    hide Verifies, DigestInput, SameLengths, Build, NoteDigest;
  }

  lemma SameInputSameRequest(lib: Library, r: Request, s: Request, vkek: string, enc: VkekEncoding)
    requires SameLengths(r, s) && DigestInput(lib, r, vkek, enc) == DigestInput(lib, s, vkek, enc)
    ensures r == s
  {
    DigestCovers(lib, r, vkek, enc);
    DigestCovers(lib, s, vkek, enc);
    hide DigestInput;
  }

  /** In particular a Note for a request from one end is none for the same request from the other. */
  lemma ExchangedEndsAreRefused(lib: Library, r: Request, vkek: string, enc: VkekEncoding)
    requires Base64(lib) && CollisionFree(lib) && |r.from| == |r.to| && r.from != r.to
    ensures !Verifies(lib, Build(lib, r, vkek, enc), r.(from := r.to, to := r.from), vkek, enc)
  {
    hide Verifies;
    OtherRequestIsRefused(lib, r, r.(from := r.to, to := r.from), vkek, enc);
  }

  /** The header text, and that the algorithm is named in any case. */
  lemma NoteText(lib: Library, r: Request, vkek: string, enc: VkekEncoding, a: string)
    ensures Build(lib, r, vkek, enc)
      == "Digest nonce=\"" + lib.encode(lib.hash(DigestInput(lib, r, vkek, enc))) + "\",algorithm=SM3"
    ensures NamesSm3(a) <==>
      |a| == 3 && (a[0] == 'S' || a[0] == 's') && (a[1] == 'M' || a[1] == 'm') && a[2] == '3'
  {
    var u := Upper(a);
    assert |u| == 3 ==> u == [u[0], u[1], u[2]];
  }

  /** The parts may come in either order, with a space between them and an unquoted nonce. */
  lemma PartsInEitherOrder(n: string, a: string)
    requires Plain(n) && Plain(a)
    ensures Parse("Digest algorithm=" + a + ", nonce=\"" + n + "\"") == Some((n, a))
    ensures Parse("Digest nonce=" + n + ", algorithm=" + a) == Some((n, a))
  {
    AlgorithmFirst(n, a);
    NonceFirst(n, a);
  }

  lemma AlgorithmFirst(n: string, a: string)
    requires Plain(n) && Plain(a)
    ensures Parse("Digest algorithm=" + a + ", nonce=\"" + n + "\"") == Some((n, a))
  {
    var (p, q) := ("algorithm=" + a, NoncePart(n));
    PartIsWhole("algorithm=", a);
    NoncePartIsWhole(n);
    assert !("nonce=" <= p);
    assert "Digest algorithm=" + a + ", nonce=\"" + n + "\"" == "Digest " + (p + ", " + q);
    assert q[0] == 'n' && q[|q| - 1] == '"';
    TwoPartsAreRead(p, q);
    QuotedIsTrimmed(n);
    hide Parse, NoncePart, Trim, TrimQuotes;
    NonceBehind(p, " " + q, "\"" + n + "\"", a);
  }

  lemma NonceFirst(n: string, a: string)
    requires Plain(n) && Plain(a)
    ensures Parse("Digest nonce=" + n + ", algorithm=" + a) == Some((n, a))
  {
    var (p, q) := ("nonce=" + n, "algorithm=" + a);
    PartIsWhole("nonce=", n);
    PartIsWhole("algorithm=", a);
    assert !("algorithm=" <= p);
    assert "Digest nonce=" + n + ", algorithm=" + a == "Digest " + (p + ", " + q);
    TwoPartsAreRead(p, q);
    BareIsTrimmed(n);
    hide Parse, Trim, TrimQuotes;
    NonceInFront(p, " " + q, n, a);
  }

  /** A part keeps what stands behind its name. */
  lemma PartIsWhole(name: string, v: string)
    requires (name == "algorithm=" || name == "nonce=") && Plain(v)
    ensures Trimmed(name + v) && ',' !in name + v && StripPrefix(name + v, name) == Some(v)
  {
    PrefixIsStripped(name, v);
    assert ',' !in v && ',' !in name;
    assert (name + v)[|name + v| - 1] == v[|v| - 1];
  }

  lemma BareIsTrimmed(n: string)
    requires Plain(n)
    ensures TrimQuotes(n) == n
  {
  }

  lemma TwoPartsAreRead(p: string, q: string)
    requires p != "" && q != "" && Trimmed(p) && Trimmed(q) && ',' !in p && ',' !in q
    ensures Parse("Digest " + (p + ", " + q)) == NonceAmong([p, " " + q], [p, " " + q])
    ensures Trim(p) == p && Trim(" " + q) == q
  {
    TrimTrimmed(p);
    TrimLeadingSpace(q);
    hide StripPrefix, SplitOn, NonceAmong, Trim;
    var rest := p + ", " + q;
    var note := "Digest " + rest;
    assert note[|note| - 1] == q[|q| - 1] && note[0] == 'D';
    TrimTrimmed(note);
    PrefixIsStripped("Digest ", rest);
    assert rest == p + [','] + (" " + q);
    SplitOnPrefix(p, ',', " " + q);
    SplitOnWhole(" " + q, ',');
    assert [p] + [" " + q] == [p, " " + q];
  }

  lemma NonceBehind(first: string, second: string, v: string, a: string)
    requires StripPrefix(Trim(first), "nonce=") == None && StripPrefix(Trim(first), "algorithm=") == Some(a)
    requires StripPrefix(Trim(second), "nonce=") == Some(v) && TrimQuotes(v) != "" && a != ""
    ensures NonceAmong([first, second], [first, second]) == Some((TrimQuotes(v), a))
  {
    hide StripPrefix, Trim, TrimQuotes;
    assert [first, second][1..] == [second];
  }

  lemma NonceInFront(first: string, second: string, v: string, a: string)
    requires StripPrefix(Trim(first), "nonce=") == Some(v) && TrimQuotes(v) != "" && a != ""
    requires
      StripPrefix(Trim(first), "algorithm=") == None && StripPrefix(Trim(second), "algorithm=") == Some(a)
    ensures NonceAmong([first, second], [first, second]) == Some((TrimQuotes(v), a))
  {
    AlgorithmSkips(first, [second]);
    hide StripPrefix, Trim, TrimQuotes;
    assert [first] + [second] == [first, second];
  }

  /** A Note without a nonce, or without an algorithm, is refused. */
  lemma PartIsMissing(v: string)
    requires Plain(v)
    ensures Parse("Digest nonce=" + v) == None && Parse("Digest algorithm=" + v) == None
  {
    PartIsWhole("nonce=", v);
    PartIsWhole("algorithm=", v);
    var (n, a) := ("nonce=" + v, "algorithm=" + v);
    assert "Digest nonce=" + v == "Digest " + n && "Digest algorithm=" + v == "Digest " + a;
    assert !("algorithm=" <= n) && !("nonce=" <= a);
    OnePartIsRead(n);
    OnePartIsRead(a);
    BareIsTrimmed(v);
    hide Parse, Trim, TrimQuotes;
    assert [n][1..] == [] && [a][1..] == [];
    assert Algorithm([n]) == "";
  }

  lemma OnePartIsRead(p: string)
    requires p != "" && Trimmed(p) && ',' !in p
    ensures Parse("Digest " + p) == NonceAmong([p], [p])
    ensures Trim(p) == p
  {
    TrimTrimmed(p);
    hide StripPrefix, SplitOn, NonceAmong, Trim;
    var note := "Digest " + p;
    assert note[|note| - 1] == p[|p| - 1] && note[0] == 'D';
    TrimTrimmed(note);
    PrefixIsStripped("Digest ", p);
    SplitOnWhole(p, ',');
  }
}
