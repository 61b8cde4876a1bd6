/** The string operations the parsers lean on: searching, splitting, lines, trimming, decimals. */
module Text {
  import opened Results

  // --- Searching and splitting ---

  /** The first index of c in s, or the length of s. */
  function IndexOf(s: string, c: char): (i: nat)
    ensures i <= |s|
    ensures c !in s[..i]
    ensures i < |s| ==> s[i] == c
  {
    if s == "" then 0
    else if s[0] == c then 0
    else
      var i := 1 + IndexOf(s[1..], c);
      assert s[..i] == [s[0]] + s[1..][..i - 1];
      i
  }

  /** The first occurrence of c ends a prefix that does not hold it. */
  lemma IndexAfterPrefix(p: string, c: char, rest: string)
    requires c !in p
    ensures IndexOf(p + [c] + rest, c) == |p|
  {
    var s := p + [c] + rest;
    var i := IndexOf(s, c);
    assert forall k :: 0 <= k < i ==> s[..i][k] == s[k] && s[k] in s[..i];
    assert forall k :: 0 <= k < |p| ==> s[k] == p[k] && p[k] in p;
    assert s[|p|] == c;
  }

  lemma {:induction false} IndexIs(s: string, c: char, n: nat)
    requires n <= |s| && (forall i :: 0 <= i < n ==> s[i] != c) && (n < |s| ==> s[n] == c)
    ensures IndexOf(s, c) == n
  {
    if n > 0 {
      IndexIs(s[1..], c, n - 1);
    }
  }

  lemma IndexOfAbsent(s: string, c: char)
    requires c !in s
    ensures IndexOf(s, c) == |s|
  {
  }

  /** All pieces between occurrences of c; at least one. */
  function SplitOn(s: string, c: char): (parts: seq<string>)
    ensures |parts| >= 1
    decreases |s|
  {
    var i := IndexOf(s, c);
    if i == |s| then [s] else [s[..i]] + SplitOn(s[i + 1..], c)
  }

  lemma SplitOnPrefix(p: string, c: char, rest: string)
    requires c !in p
    ensures SplitOn(p + [c] + rest, c) == [p] + SplitOn(rest, c)
  {
    var s := p + [c] + rest;
    IndexAfterPrefix(p, c, rest);
    assert s[..|p|] == p && s[|p| + 1..] == rest;
  }

  lemma SplitOnWhole(s: string, c: char)
    requires c !in s
    ensures SplitOn(s, c) == [s]
  {
    IndexOfAbsent(s, c);
  }

  /** `splitn(n, ' ')` */
  function SplitAtMost(s: string, n: nat): (parts: seq<string>)
    ensures 1 <= |parts| <= Max(n, 1)
    decreases n
  {
    var i := IndexOf(s, ' ');
    if n <= 1 || i == |s| then [s] else [s[..i]] + SplitAtMost(s[i + 1..], n - 1)
  }

  lemma SplitAtMostPrefix(p: string, rest: string, n: nat)
    requires ' ' !in p && n > 1
    ensures SplitAtMost(p + " " + rest, n) == [p] + SplitAtMost(rest, n - 1)
  {
    var s := p + " " + rest;
    assert s == p + [' '] + rest;
    IndexAfterPrefix(p, ' ', rest);
    assert s[..|p|] == p && s[|p| + 1..] == rest;
  }

  lemma SplitAtMostWhole(s: string, n: nat)
    requires ' ' !in s || n <= 1
    ensures SplitAtMost(s, n) == [s]
  {
    if ' ' !in s {
      IndexOfAbsent(s, ' ');
    }
  }

  // --- Lines ---

  function StripCr(s: string): string {
    if s != "" && s[|s| - 1] == '\r' then s[..|s| - 1] else s
  }

  /** A line ends at LF or CR LF; the text behind the last LF is a line only if it is not empty. */
  function Lines(s: string): seq<string>
    decreases |s|
  {
    if s == "" then []
    else
      var i := IndexOf(s, '\n');
      if i == |s| then [s] else [StripCr(s[..i])] + Lines(s[i + 1..])
  }

  lemma LinesFront(line: string, rest: string)
    requires '\n' !in line
    ensures Lines(line + "\r\n" + rest) == [line] + Lines(rest)
  {
    var s := line + "\r\n" + rest;
    var p := line + "\r";
    assert s == p + ['\n'] + rest;
    IndexAfterPrefix(p, '\n', rest);
    assert s[..|p|] == p && s[|p| + 1..] == rest && p[..|p| - 1] == line;
  }

  predicate NoLf(s: string) {
    '\n' !in s
  }

  lemma {:induction false} LinesHaveNoLf(s: string)
    ensures forall i :: 0 <= i < |Lines(s)| ==> NoLf(Lines(s)[i])
    decreases |s|
  {
    if s != "" {
      var i := IndexOf(s, '\n');
      if i == |s| {
        assert s[..i] == s;
      } else {
        LinesHaveNoLf(s[i + 1..]);
      }
    }
  }

  // --- Trimming ---

  /** The White_Space characters of Unicode. */
  predicate IsSpace(c: char) {
    || c == ' ' || '\t' <= c <= '\r' || c == '\U{0085}' || c == '\U{00A0}' || c == '\U{1680}'
    || '\U{2000}' <= c <= '\U{200A}' || c == '\U{2028}' || c == '\U{2029}' || c == '\U{202F}'
    || c == '\U{205F}' || c == '\U{3000}'
  }

  function TrimStart(s: string): string {
    if s != "" && IsSpace(s[0]) then TrimStart(s[1..]) else s
  }

  function TrimEnd(s: string): string {
    if s != "" && IsSpace(s[|s| - 1]) then TrimEnd(s[..|s| - 1]) else s
  }

  function Trim(s: string): string {
    TrimEnd(TrimStart(s))
  }

  /** No space at the end. */
  predicate EndsPlain(s: string) {
    s == "" || !IsSpace(s[|s| - 1])
  }

  /** No space at either end. */
  predicate Trimmed(s: string) {
    s == "" || (!IsSpace(s[0]) && !IsSpace(s[|s| - 1]))
  }

  lemma TrimTrimmed(s: string)
    requires Trimmed(s)
    ensures Trim(s) == s
  {
  }

  lemma TrimIsTrimmed(s: string)
    ensures Trimmed(Trim(s)) && |Trim(s)| <= |s|
  {
    TrimStartTrims(s);
    TrimEndTrims(TrimStart(s));
  }

  lemma {:induction false} TrimStartTrims(s: string)
    ensures |TrimStart(s)| <= |s|
    ensures TrimStart(s) != "" ==> !IsSpace(TrimStart(s)[0])
  {
    if s != "" && IsSpace(s[0]) {
      TrimStartTrims(s[1..]);
    }
  }

  lemma {:induction false} TrimEndTrims(s: string)
    ensures |TrimEnd(s)| <= |s|
    ensures TrimEnd(s) != "" ==> !IsSpace(TrimEnd(s)[|TrimEnd(s)| - 1]) && TrimEnd(s)[0] == s[0]
  {
    if s != "" && IsSpace(s[|s| - 1]) {
      TrimEndTrims(s[..|s| - 1]);
    }
  }

  lemma {:induction false} TrimStartIsSuffix(s: string)
    ensures |TrimStart(s)| <= |s| && TrimStart(s) == s[|s| - |TrimStart(s)|..]
  {
    if s != "" && IsSpace(s[0]) {
      TrimStartIsSuffix(s[1..]);
    }
  }

  lemma {:induction false} TrimEndIsPrefix(s: string)
    ensures TrimEnd(s) <= s
  {
    if s != "" && IsSpace(s[|s| - 1]) {
      TrimEndIsPrefix(s[..|s| - 1]);
    }
  }

  /** Trimming a sum stops in its second part unless that is all space. */
  lemma {:induction false} TrimEndAppend(a: string, b: string)
    ensures TrimEnd(a + b) == if TrimEnd(b) == "" then TrimEnd(a) else a + TrimEnd(b)
    decreases |b|
  {
    if b == "" {
      assert a + b == a;
    } else if IsSpace(b[|b| - 1]) {
      assert (a + b)[..|a + b| - 1] == a + b[..|b| - 1];
      TrimEndAppend(a, b[..|b| - 1]);
    }
  }

  lemma TrimEndBehind(s: string, v: string)
    requires s != "" && !IsSpace(s[|s| - 1])
    ensures TrimEnd(s + v) == s + TrimEnd(v)
  {
    TrimEndAppend(s, v);
    assert s + "" == s;
  }

  /** Trimming brings no new characters in. */
  lemma TrimKeepsOut(s: string, c: char)
    requires c !in s
    ensures c !in Trim(s)
  {
    TrimStartIsSuffix(s);
    TrimEndIsPrefix(TrimStart(s));
  }

  /** A leading space in front of trimmed text goes away. */
  lemma TrimLeadingSpace(s: string)
    requires Trimmed(s)
    ensures Trim(" " + s) == s
  {
    assert (" " + s)[1..] == s;
    TrimTrimmed(s);
  }

  /** `trim_matches('"')` */
  function TrimQuotes(s: string): string {
    if s != "" && s[0] == '"' then TrimQuotes(s[1..])
    else if s != "" && s[|s| - 1] == '"' then TrimQuotes(s[..|s| - 1])
    else s
  }

  // --- ASCII case ---

  function LowerChar(c: char): char {
    if 'A' <= c <= 'Z' then (c as int + 32) as char else c
  }

  function Lower(s: string): (l: string)
    ensures |l| == |s|
  {
    seq(|s|, i requires 0 <= i < |s| => LowerChar(s[i]))
  }

  function UpperChar(c: char): char {
    if 'a' <= c <= 'z' then (c as int - 32) as char else c
  }

  function Upper(s: string): string {
    seq(|s|, i requires 0 <= i < |s| => UpperChar(s[i]))
  }

  // --- Decimals ---

  predicate IsDigit(c: char) {
    '0' <= c <= '9'
  }

  predicate AllDigits(s: string) {
    forall i :: 0 <= i < |s| ==> IsDigit(s[i])
  }

  function DigitValue(c: char): nat
    requires IsDigit(c)
  {
    c as int - '0' as int
  }

  function DigitChar(n: nat): (c: char)
    requires n < 10
    ensures IsDigit(c) && DigitValue(c) == n
  {
    (n + '0' as int) as char
  }

  function Decimal(n: nat): (s: string)
    ensures |s| >= 1 && AllDigits(s)
  {
    if n < 10 then [DigitChar(n)] else Decimal(n / 10) + [DigitChar(n % 10)]
  }

  function DecimalValue(s: string): nat
    requires AllDigits(s)
  {
    if s == "" then 0 else DecimalValue(s[..|s| - 1]) * 10 + DigitValue(s[|s| - 1])
  }

  /** Reading a printed number gives the number back. */
  lemma {:induction false} DecimalRoundTrip(n: nat)
    ensures DecimalValue(Decimal(n)) == n
  {
    var s := Decimal(n);
    if n < 10 {
      assert s[..0] == "";
    } else {
      DecimalRoundTrip(n / 10);
      assert s[..|s| - 1] == Decimal(n / 10);
    }
  }

  /** `{:0width}` formatting: leading zeros up to the width, never truncated. */
  function Padded(n: nat, width: nat): string {
    Zeros(width - |Decimal(n)|) + Decimal(n)
  }

  function Zeros(k: int): (s: string)
    ensures |s| == Max(k, 0) && AllDigits(s)
    ensures forall i :: 0 <= i < |s| ==> s[i] == '0'
    decreases k
  {
    if k <= 0 then "" else "0" + Zeros(k - 1)
  }

  lemma {:induction false} DecimalValueZeros(z: string, s: string)
    requires AllDigits(s) && AllDigits(z) && forall i :: 0 <= i < |z| ==> z[i] == '0'
    ensures DecimalValue(z + s) == DecimalValue(s)
    decreases |s|
  {
    if s == "" {
      assert z + s == z;
      ZerosValue(z);
    } else {
      assert (z + s)[..|z + s| - 1] == z + s[..|s| - 1];
      DecimalValueZeros(z, s[..|s| - 1]);
    }
  }

  lemma {:induction false} ZerosValue(z: string)
    requires AllDigits(z) && forall i :: 0 <= i < |z| ==> z[i] == '0'
    ensures DecimalValue(z) == 0
  {
    if z != "" {
      ZerosValue(z[..|z| - 1]);
    }
  }

  function Pow10(k: nat): (p: nat)
    ensures p >= 1
  {
    if k == 0 then 1 else 10 * Pow10(k - 1)
  }

  /** A number takes no more digits than its bound. */
  lemma {:induction false} DecimalLength(n: nat, k: nat)
    requires k >= 1 && n < Pow10(k)
    ensures |Decimal(n)| <= k
  {
    if n >= 10 {
      assert k > 1;
      DecimalLength(n / 10, k - 1);
    }
  }

  /** Within its width a padded number reads back. */
  lemma PaddedRoundTrip(n: nat, width: nat)
    requires width >= 1 && n < Pow10(width)
    ensures |Padded(n, width)| == width && AllDigits(Padded(n, width)) && DecimalValue(Padded(n, width)) == n
  {
    DecimalLength(n, width);
    DecimalRoundTrip(n);
    DecimalValueZeros(Zeros(width - |Decimal(n)|), Decimal(n));
  }

  /** `str::parse` of an unsigned type: an optional plus sign, digits, no overflow. */
  function ParseUnsigned(s: string, max: nat): Option<nat> {
    var digits := if s != "" && s[0] == '+' then s[1..] else s;
    if digits == "" || !AllDigits(digits) || DecimalValue(digits) > max then None
    else Some(DecimalValue(digits))
  }

  /** `str::parse` of a 64-bit signed integer. */
  function ParseSigned(s: string): Option<int> {
    if s != "" && s[0] == '-' then
      if s == "-" || !AllDigits(s[1..]) || DecimalValue(s[1..]) > 0x8000_0000_0000_0000 then None
      else var magnitude: int := DecimalValue(s[1..]); Some(-magnitude)
    else
      match ParseUnsigned(s, 0x7FFF_FFFF_FFFF_FFFF)
      case None => None
      case Some(n) => Some(n)
  }

  lemma ParsePrinted(n: nat, max: nat)
    requires n <= max
    ensures ParseUnsigned(Decimal(n), max) == Some(n)
  {
    DecimalRoundTrip(n);
    assert IsDigit(Decimal(n)[0]);
  }

  lemma ParsePadded(n: nat, width: nat)
    requires 1 <= width <= 18 && n < Pow10(width)
    ensures ParseSigned(Padded(n, width)) == Some(n)
  {
    PaddedRoundTrip(n, width);
    assert IsDigit(Padded(n, width)[0]);
    PowerBound(width);
  }

  lemma PowerBound(width: nat)
    requires width <= 18
    ensures Pow10(width) <= 1_000_000_000_000_000_000
  {
    if width < 18 {
      PowerGrows(width, 18);
    }
    assert Pow10(9) == 1_000_000_000;
    assert Pow10(18) == 1_000_000_000_000_000_000;
  }

  lemma {:induction false} PowerGrows(a: nat, b: nat)
    requires a <= b
    ensures Pow10(a) <= Pow10(b)
    decreases b - a
  {
    if a < b {
      PowerGrows(a + 1, b);
    }
  }

  /** An unsigned number is digits, a plus sign in front or none, of a value within the bound. */
  lemma UnsignedIsRead(n: nat, max: nat, s: string)
    ensures n <= max ==> ParseUnsigned(Decimal(n), max) == ParseUnsigned("+" + Decimal(n), max) == Some(n)
    ensures n > max ==> ParseUnsigned(Decimal(n), max) == None
    ensures (exists i :: 0 < i < |s| && !IsDigit(s[i])) ==> ParseUnsigned(s, max) == None
    ensures s == "" || (s[0] != '+' && !IsDigit(s[0])) || s == "+" ==> ParseUnsigned(s, max) == None
  {
    DecimalRoundTrip(n);
    assert IsDigit(Decimal(n)[0]);
    assert ("+" + Decimal(n))[1..] == Decimal(n);
    if i :| 0 < i < |s| && !IsDigit(s[i]) {
      assert s[1..][i - 1] == s[i];
    }
  }

  /** Lines end at LF, with or without a CR in front; a last line needs no end. */
  lemma LinesAreCut(line: string, rest: string)
    requires '\n' !in line
    ensures Lines(line + "\n" + rest) == [StripCr(line)] + Lines(rest)
    ensures line != "" ==> Lines(line) == [line]
  {
    var s := line + ['\n'] + rest;
    IndexAfterPrefix(line, '\n', rest);
    assert s[..|line|] == line && s[|line| + 1..] == rest && s == line + "\n" + rest;
    IndexOfAbsent(line, '\n');
  }

  /** Case changes letters of ASCII alone, each to its counterpart. */
  lemma CasesAreAscii(s: string, i: nat)
    requires i < |s|
    ensures Upper(s)[i] == (if 'a' <= s[i] <= 'z' then (s[i] as int - 32) as char else s[i])
    ensures Lower(s)[i] == (if 'A' <= s[i] <= 'Z' then (s[i] as int + 32) as char else s[i])
  {
  }
}
