/** The per-frame time stamps beside a segment, and reading the two together (src/segment.rs). */
module Sidecar {
  import opened Octets
  import opened Results
  import opened Text
  import Segment

  const NOMINAL_FPS := 25
  const U64_MAX := 0xFFFF_FFFF_FFFF_FFFF

  /** One `{"pts_ms":N}` line. */
  function ParsePtsMs(line: string): Option<nat> {
    var t := Trim(line);
    if |t| < 2 || t[0] != '{' || t[|t| - 1] != '}' then None
    else
      var inner := t[1..|t| - 1];
      var colon := IndexOf(inner, ':');
      if TrimQuotes(Trim(inner[..colon])) != "pts_ms" || colon == |inner| then None
      else ParseUnsigned(TrimQuotes(Trim(inner[colon + 1..])), U64_MAX)
  }

  function Cadence(count: nat): seq<nat> {
    seq(count, i => i * 1000 / NOMINAL_FPS)
  }

  /** The times collected from the lines on, stopping as soon as there are enough. */
  function Collect(lines: seq<string>, pts: seq<nat>, count: nat): seq<nat>
    decreases |lines|
  {
    if lines == [] then pts
    else if Trim(lines[0]) == "" then Collect(lines[1..], pts, count)
    else
      var now := match ParsePtsMs(Trim(lines[0])) case Some(ms) => pts + [ms] case None => pts;
      if |now| >= count then now else Collect(lines[1..], now, count)
  }

  function Times(content: Option<string>, count: nat): (pts: seq<nat>)
    ensures |pts| >= count
  {
    var read := match content case Some(text) => Collect(Lines(text), [], count) case None => [];
    if |read| < count then Cadence(count) else read
  }

  method LoadPts(content: Option<string>, count: nat) returns (pts: seq<nat>)
    ensures pts == Times(content, count)
  {
    pts := [];
    if content.Some? {
      var lines := Lines(content.value);
      for i := 0 to |lines|
        invariant Collect(lines[i..], pts, count) == Collect(lines, [], count)
      {
        assert lines[i..][1..] == lines[i + 1..];
        var trimmed := Trim(lines[i]);
        if |trimmed| == 0 {
          continue;
        }
        var ms := ParsePtsMs(trimmed);
        if ms.Some? {
          pts := pts + [ms.value];
        }
        if |pts| >= count {
          break;
        }
      }
    }
    if |pts| < count {
      pts := Cadence(count);
    }
  }

  // --- Writing and reading back ---

  function Line(ms: nat): string {
    "{\"pts_ms\":" + Decimal(ms) + "}"
  }

  function WrittenTimes(times: seq<nat>): string {
    if times == [] then "" else Line(times[0]) + "\n" + WrittenTimes(times[1..])
  }

  lemma ParseWrittenLine(ms: nat)
    requires ms <= U64_MAX
    ensures ParsePtsMs(Line(ms)) == Some(ms) && Trim(Line(ms)) == Line(ms) != ""
  {
    var line := Line(ms);
    var digits := Decimal(ms);
    TrimTrimmed(line);
    var inner := line[1..|line| - 1];
    assert inner == KEY + [':'] + digits;
    IndexAfterPrefix(KEY, ':', digits);
    assert inner[..|KEY|] == KEY && inner[|KEY| + 1..] == digits;
    KeyIsRead();
    DigitsAreRead(ms);
  }

  const KEY := "\"pts_ms\""

  lemma KeyIsRead()
    ensures TrimQuotes(Trim(KEY)) == "pts_ms"
  {
    TrimTrimmed(KEY);
    assert KEY[1..] == "pts_ms\"";
    assert "pts_ms\""[..6] == "pts_ms";
  }

  lemma DigitsAreRead(ms: nat)
    requires ms <= U64_MAX
    ensures ParseUnsigned(TrimQuotes(Trim(Decimal(ms))), U64_MAX) == Some(ms)
  {
    var digits := Decimal(ms);
    assert IsDigit(digits[0]) && IsDigit(digits[|digits| - 1]);
    TrimTrimmed(digits);
    ParsePrinted(ms, U64_MAX);
  }

  lemma WrittenLineIsOneLine(ms: nat, rest: string)
    ensures Lines(Line(ms) + "\n" + rest) == [Line(ms)] + Lines(rest)
  {
    var line := Line(ms);
    forall i | 0 <= i < |line|
      ensures line[i] != '\n'
    {
      if 10 <= i < |line| - 1 {
        assert line[i] == Decimal(ms)[i - 10] && IsDigit(Decimal(ms)[i - 10]);
      }
    }
    assert line + "\n" + rest == line + ['\n'] + rest;
    IndexAfterPrefix(line, '\n', rest);
    var all := line + "\n" + rest;
    assert all[..|line|] == line && all[|line| + 1..] == rest;
  }

  function WrittenLines(times: seq<nat>): seq<string> {
    if times == [] then [] else [Line(times[0])] + WrittenLines(times[1..])
  }

  lemma {:induction false} LinesOfWritten(times: seq<nat>)
    ensures Lines(WrittenTimes(times)) == WrittenLines(times)
  {
    if times != [] {
      WrittenLineIsOneLine(times[0], WrittenTimes(times[1..]));
      LinesOfWritten(times[1..]);
    }
  }

  lemma CollectOne(ms: nat, rest: seq<string>, pts: seq<nat>, count: nat)
    requires ms <= U64_MAX
    ensures
      Collect([Line(ms)] + rest, pts, count) ==
      if |pts| + 1 >= count then pts + [ms] else Collect(rest, pts + [ms], count)
  {
    ParseWrittenLine(ms);
    assert ([Line(ms)] + rest)[1..] == rest;
  }

  /** The collected times, filled up to count. */
  function Filled(times: seq<nat>, pts: seq<nat>, count: nat): seq<nat> {
    if |pts| + |times| < count || |pts| > count then pts + times else pts + times[..count - |pts|]
  }

  lemma FilledStep(times: seq<nat>, pts: seq<nat>, count: nat)
    requires times != [] && |pts| < count
    ensures
      Filled(times, pts, count) ==
      if |pts| + 1 >= count then pts + [times[0]] else Filled(times[1..], pts + [times[0]], count)
  {
    var now := pts + [times[0]];
    if |pts| + 1 >= count {
      assert times[..count - |pts|] == [times[0]];
    } else if |pts| + |times| < count {
      assert now + times[1..] == pts + times;
    } else {
      assert now + times[1..][..count - |now|] == pts + times[..count - |pts|];
    }
  }

  lemma {:induction false} CollectWritten(times: seq<nat>, pts: seq<nat>, count: nat)
    requires forall k :: 0 <= k < |times| ==> times[k] <= U64_MAX
    requires |pts| < count
    ensures Collect(WrittenLines(times), pts, count) == Filled(times, pts, count)
    decreases |times|
  {
    if times != [] {
      CollectOne(times[0], WrittenLines(times[1..]), pts, count);
      FilledStep(times, pts, count);
      if |pts| + 1 < count {
        CollectWritten(times[1..], pts + [times[0]], count);
      }
    }
  }

  /**
   * A sidecar with a time for every access unit is read as written; one that runs short is not
   * used at all, and the units are spaced 40 ms apart instead.
   */
  lemma TimesOfWritten(times: seq<nat>, count: nat)
    requires forall k :: 0 <= k < |times| ==> times[k] <= U64_MAX
    requires count > 0
    ensures
      Times(Some(WrittenTimes(times)), count) == if |times| >= count then times[..count] else seq(count, i => 40 * i)
    ensures Times(None, count) == seq(count, i => 40 * i)
  {
    CadenceIsFixed(count);
    LinesOfWritten(times);
    CollectWritten(times, [], count);
    FilledFromNothing(times, count);
  }

  lemma CadenceIsFixed(count: nat)
    ensures Cadence(count) == seq(count, i => 40 * i)
  {
    assert forall i :: 0 <= i < count ==> Cadence(count)[i] == i * 1000 / 25 == 40 * i;
  }

  lemma FilledFromNothing(times: seq<nat>, count: nat)
    requires count > 0
    ensures Filled(times, [], count) == if |times| < count then times else times[..count]
  {
  }

  // --- A whole segment ---

  datatype RecordedAu = RecordedAu(nalus: seq<Bytes>, ptsOffset: nat, isKeyFrame: bool)

  function Recorded(groups: seq<(seq<Bytes>, bool)>, pts: seq<nat>): (aus: seq<RecordedAu>)
    requires |pts| >= |groups|
    ensures |aus| == |groups|
  {
    seq(|groups|, i requires 0 <= i < |groups| => RecordedAu(groups[i].0, pts[i], groups[i].1))
  }

  function ReadSegment(data: Bytes, sidecar: Option<string>): seq<RecordedAu> {
    var groups := Segment.ReadAus(data);
    Recorded(groups, Times(sidecar, |groups|))
  }

  method ReadSegmentFile(data: Bytes, sidecar: Option<string>) returns (aus: seq<RecordedAu>)
    ensures aus == ReadSegment(data, sidecar)
  {
    var nalus := Segment.Parse(data);
    var groups := Segment.GroupAus(nalus);
    var pts := LoadPts(sidecar, |groups|);
    aus := Recorded(groups, pts);
  }

  /** A segment and its sidecar, once written, are read back unit by unit with flags and times. */
  lemma SegmentRoundTrip(aus: seq<seq<Bytes>>, times: seq<nat>)
    requires Segment.AccessUnits(aus) && |times| == |aus|
    requires forall k :: 0 <= k < |times| ==> times[k] <= U64_MAX
    ensures
      var read := ReadSegment(Segment.Written(Segment.Flatten(aus)), Some(WrittenTimes(times)));
      && |read| == |aus|
      && forall k :: 0 <= k < |aus| ==>
           && read[k].nalus == aus[k] && read[k].ptsOffset == times[k]
           && (read[k].isKeyFrame <==> Segment.TypeOf(aus[k][|aus[k]| - 1]) == 5)
  {
    Segment.ReadInvertsWritten(aus);
    Segment.FlaggedIndex(aus);
    forall k | 0 <= k < |aus|
      ensures Segment.IsAccessUnit(aus[k])
    {
    }
    FlagsOf(aus);
    if |aus| > 0 {
      TimesOfWritten(times, |aus|);
      assert times[..|aus|] == times;
    }
  }

  lemma {:induction false} FlagsOf(aus: seq<seq<Bytes>>)
    requires Segment.AccessUnits(aus)
    ensures |Segment.Flagged(aus)| == |aus|
    ensures forall k :: 0 <= k < |aus| ==>
      Segment.Flagged(aus)[k] == (aus[k], Segment.TypeOf(aus[k][|aus[k]| - 1]) == 5)
  {
    if aus != [] {
      assert forall k :: 0 <= k < |aus| - 1 ==> aus[1..][k] == aus[k + 1];
      assert Segment.IsAccessUnit(aus[0]);
      FlagsOf(aus[1..]);
    }
  }

  // --- Lines by other hands ---

  /** Quotes may be missing from the key and may stand around the number; another key is no time. */
  lemma OtherLines(ms: nat, key: string)
    requires ms <= U64_MAX
    requires key != "" && ':' !in key && Trimmed(key) && key[0] != '"' && key[|key| - 1] != '"' && key != "pts_ms"
    ensures ParsePtsMs("{" + ("pts_ms" + ":" + Decimal(ms)) + "}") == Some(ms)
    ensures ParsePtsMs("{" + ("pts_ms" + ":" + ("\"" + Decimal(ms) + "\"")) + "}") == Some(ms)
    ensures ParsePtsMs("{" + (key + ":" + Decimal(ms)) + "}") == None
  {
    var digits := Decimal(ms);
    DigitsAreRead(ms);
    QuotedDigitsAreRead(ms);
    BareKeyIsRead("pts_ms");
    BareKeyIsRead(key);
    hide Trim, TrimQuotes, ParseUnsigned, Decimal;
    LineIsCut("pts_ms", digits);
    LineIsCut("pts_ms", "\"" + digits + "\"");
    LineIsCut(key, digits);
  }

  lemma BareKeyIsRead(key: string)
    requires key != "" && Trimmed(key) && key[0] != '"' && key[|key| - 1] != '"'
    ensures TrimQuotes(Trim(key)) == key
  {
    TrimTrimmed(key);
  }

  lemma QuotedDigitsAreRead(ms: nat)
    requires ms <= U64_MAX
    ensures ParseUnsigned(TrimQuotes(Trim("\"" + Decimal(ms) + "\"")), U64_MAX) == Some(ms)
  {
    var digits := Decimal(ms);
    var s := "\"" + digits + "\"";
    assert IsDigit(digits[0]) && IsDigit(digits[|digits| - 1]);
    TrimTrimmed(s);
    assert s[1..] == digits + "\"" && (digits + "\"")[..|digits|] == digits;
    assert TrimQuotes(s) == TrimQuotes(digits + "\"") == TrimQuotes(digits) == digits;
    ParsePrinted(ms, U64_MAX);
  }

  /** A line in braces is its key, up to the first colon, and its value. */
  lemma LineIsCut(key: string, value: string)
    requires ':' !in key
    ensures ParsePtsMs("{" + (key + ":" + value) + "}") ==
      if TrimQuotes(Trim(key)) != "pts_ms" then None else ParseUnsigned(TrimQuotes(Trim(value)), U64_MAX)
  {
    var inner := key + ":" + value;
    var t := "{" + inner + "}";
    assert t[0] == '{' && t[|t| - 1] == '}' && t[1..|t| - 1] == inner;
    TrimTrimmed(t);
    assert inner == key + [':'] + value;
    IndexAfterPrefix(key, ':', value);
    assert inner[..|key|] == key && inner[|key| + 1..] == value;
    hide TrimQuotes, ParseUnsigned, IndexOf;
  }
}
