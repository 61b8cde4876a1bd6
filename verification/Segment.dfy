/**
 * Recording segments, src/segment.rs: a second Annex B splitter that looks back for the fourth
 * byte of a start code, access-unit grouping, and the time-stamp sidecar.
 */
module Segment {
  import opened Octets
  import opened Results
  import opened Text
  import AnnexB

  datatype Nalu = Nalu(
    naluType: nat, data: Bytes, isIdr: bool, isSps: bool, isPps: bool, isAud: bool)

  // --- The look-back scan ---

  function Positions(d: Bytes, i: nat): seq<nat>
    decreases |d| - i
  {
    if i + 2 >= |d| then []
    else if Code3At(d, i) then [if i > 0 && d[i - 1] == 0 then i - 1 else i] + Positions(d, i + 3)
    else Positions(d, i + 1)
  }

  method FindStartCodes(data: Bytes) returns (positions: seq<nat>)
    ensures positions == Positions(data, 0)
  {
    if |data| < 3 {
      return [];
    }
    positions := [];
    var i := 0;
    while i < |data| - 2
      invariant positions + Positions(data, i) == Positions(data, 0)
    {
      if data[i] == 0 && data[i + 1] == 0 && data[i + 2] == 1 {
        if i > 0 && data[i - 1] == 0 {
          positions := positions + [i - 1];
        } else {
          positions := positions + [i];
        }
        i := i + 3;
        continue;
      }
      i := i + 1;
    }
  }

  // --- The split ---

  function DataStart(d: Bytes, pos: nat): nat {
    if Code4At(d, pos) then pos + 4 else pos + 3
  }

  function DataEnd(d: Bytes, positions: seq<nat>): nat {
    if positions == [] then |d| else positions[0]
  }

  /** The units behind the listed positions; a code at the very end of the data stops the walk. */
  function UnitsBehind(d: Bytes, positions: seq<nat>): (units: seq<Bytes>)
    ensures forall k :: 0 <= k < |units| ==> units[k] != []
  {
    if positions == [] then []
    else
      var start := DataStart(d, positions[0]);
      var end := DataEnd(d, positions[1..]);
      if start >= |d| then []
      else (if start < end <= |d| then [d[start..end]] else []) + UnitsBehind(d, positions[1..])
  }

  function NaluOf(data: Bytes): Nalu
    requires data != []
  {
    var t := data[0] % 32;
    Nalu(t, data, t == 5, t == 7, t == 8, t == 9)
  }

  function Nalus(units: seq<Bytes>): seq<Nalu>
    requires forall k :: 0 <= k < |units| ==> units[k] != []
  {
    seq(|units|, k requires 0 <= k < |units| => NaluOf(units[k]))
  }

  function Units(d: Bytes): (units: seq<Bytes>)
    ensures forall k :: 0 <= k < |units| ==> units[k] != []
  {
    UnitsBehind(d, Positions(d, 0))
  }

  /** Every slice the split takes is in range, whatever the data. */
  method Parse(data: Bytes) returns (nalus: seq<Nalu>)
    ensures nalus == Nalus(Units(data))
  {
    if |data| == 0 {
      return [];
    }
    var positions := FindStartCodes(data);
    if |positions| == 0 {
      return [];
    }
    nalus := [];
    for i := 0 to |positions|
      invariant nalus + Nalus(UnitsBehind(data, positions[i..])) == Nalus(Units(data))
    {
      NalusStep(data, i, nalus);
      var atEnd, naluData := DataBehind(data, positions, i);
      if atEnd {
        break;
      }
      if |naluData| == 0 {
        continue;
      }
      nalus := nalus + [NaluOf(naluData)];
    }
  }

  /** One turn of the loop up to the slice: whether the code ends the data, else what follows it. */
  method DataBehind(data: Bytes, positions: seq<nat>, i: nat) returns (atEnd: bool, naluData: Bytes)
    requires i < |positions| && OrderedAt(data, positions, i)
    ensures atEnd <==> DataStart(data, positions[i]) >= |data|
    ensures !atEnd ==> naluData == data[DataStart(data, positions[i])..NextPosition(data, positions, i)]
  {
    var pos := positions[i];
    var naluStart;
    if pos + 4 <= |data| && data[pos] == 0 && data[pos + 1] == 0 && data[pos + 2] == 0 && data[pos + 3] == 1 {
      naluStart := pos + 4;
    } else {
      naluStart := pos + 3;
    }
    if naluStart >= |data| {
      return true, [];
    }
    var naluEnd := if i + 1 < |positions| then positions[i + 1] else |data|;
    return false, data[naluStart..naluEnd];
  }

  function NextPosition(d: Bytes, positions: seq<nat>, i: nat): nat {
    if i + 1 < |positions| then positions[i + 1] else |d|
  }

  /** Behind the code there is room up to the next. */
  predicate OrderedAt(d: Bytes, positions: seq<nat>, i: nat)
    requires i < |positions|
  {
    DataStart(d, positions[i]) <= NextPosition(d, positions, i) <= |d|
  }

  /** What the code at index i adds to the units collected before it. */
  lemma NalusStep(d: Bytes, i: nat, before: seq<Nalu>)
    requires i < |Positions(d, 0)|
    ensures
      var positions := Positions(d, 0);
      var start := DataStart(d, positions[i]);
      var end := NextPosition(d, positions, i);
      && OrderedAt(d, positions, i)
      && before + Nalus(UnitsBehind(d, positions[i..])) ==
         if start >= |d| then before
         else
           (if start < end then before + [NaluOf(d[start..end])] else before) +
           Nalus(UnitsBehind(d, positions[i + 1..]))
  {
    var positions := Positions(d, 0);
    PositionsInOrder(d, 0, i);
    assert positions[i..][1..] == positions[i + 1..];
    var end := NextPosition(d, positions, i);
    var start := DataStart(d, positions[i]);
    if start < end {
      var later := UnitsBehind(d, positions[i + 1..]);
      assert Nalus([d[start..end]] + later) == [NaluOf(d[start..end])] + Nalus(later);
    }
  }

  lemma {:induction false} PositionsInOrder(d: Bytes, i: nat, k: nat)
    requires k < |Positions(d, i)|
    ensures OrderedAt(d, Positions(d, i), k)
    decreases |d| - i, k
  {
    var positions := Positions(d, i);
    if Code3At(d, i) {
      var later := Positions(d, i + 3);
      assert positions == [positions[0]] + later;
      if k == 0 {
        FirstPosition(d, i + 3);
        assert DataStart(d, positions[0]) == i + 3;
        if later != [] {
          PositionsInOrder(d, i + 3, 0);
        }
      } else {
        PositionsInOrder(d, i + 3, k - 1);
      }
    } else {
      PositionsInOrder(d, i + 1, k);
    }
  }

  /** The scan reaches back by at most one byte, and never into the code before it. */
  lemma {:induction false} FirstPosition(d: Bytes, i: nat)
    ensures Positions(d, i) != [] ==> Positions(d, i)[0] + 1 >= i
    ensures Positions(d, i) != [] && (0 < i <= |d| ==> d[i - 1] != 0) ==> Positions(d, i)[0] >= i
    decreases |d| - i
  {
    if i + 2 < |d| && !Code3At(d, i) {
      FirstPosition(d, i + 1);
    }
  }

  // --- The two splitters ---

  /** The data ends in a three-byte code that no zero precedes. */
  predicate EndsBare(d: Bytes) {
    Code3At(d, |d| - 3) && (|d| >= 4 ==> d[|d| - 4] != 0)
  }

  function Starts(codes: seq<AnnexB.Code>): seq<nat> {
    if codes == [] then [] else [codes[0].start] + Starts(codes[1..])
  }

  /** A position the look-ahead scan can stand on. */
  predicate Standing(d: Bytes, i: nat) {
    i == 0 || i > |d| || d[i - 1] != 0 || !Code3At(d, i)
  }

  /** From where the look-ahead scan stands, the look-back scan reports the same code next. */
  lemma PositionsStep(d: Bytes, i: nat)
    requires Standing(d, i) && i + 3 < |d|
    ensures
      var next := AnnexB.NextScan(d, i);
      Positions(d, i) == if next == i + 1 then Positions(d, next) else [i] + Positions(d, next)
  {
    if Code4At(d, i) {
      assert !Code3At(d, i) && Code3At(d, i + 1);
      assert Positions(d, i) == Positions(d, i + 1);
    }
  }

  /** Both scans report the same codes, but for a bare one at the very end. */
  lemma {:induction false} SameStarts(d: Bytes, i: nat)
    requires Standing(d, i)
    ensures
      Positions(d, i) == Starts(AnnexB.Codes(d, i)) + if EndsBare(d) && i <= |d| - 3 then [|d| - 3] else []
    decreases |d| - i
  {
    if i + 3 < |d| {
      var next := AnnexB.NextScan(d, i);
      PositionsStep(d, i);
      StandsBehind(d, i);
      SameStarts(d, next);
      if next != i + 1 {
        var codes := AnnexB.Codes(d, next);
        assert AnnexB.Codes(d, i) == [AnnexB.Code(i, next)] + codes;
        assert ([AnnexB.Code(i, next)] + codes)[1..] == codes;
      }
    }
  }

  lemma StandsBehind(d: Bytes, i: nat)
    requires Standing(d, i) && i + 3 < |d|
    ensures
      var next := AnnexB.NextScan(d, i);
      Standing(d, next) && (EndsBare(d) ==> next <= |d| - 3)
  {
  }

  /** Start codes of d, in order, none reaching into the next. */
  predicate CodeChain(d: Bytes, codes: seq<AnnexB.Code>) {
    forall k :: 0 <= k < |codes| ==>
      && AnnexB.IsCode(d, codes[k])
      && codes[k].data <= if k + 1 < |codes| then codes[k + 1].start else |d|
  }

  lemma CodesAreChain(d: Bytes)
    ensures CodeChain(d, AnnexB.Codes(d, 0))
  {
    AnnexB.ScanFindsExactlyTheCodes(d);
    var codes := AnnexB.Codes(d, 0);
    forall k | 0 <= k < |codes|
      ensures AnnexB.IsCode(d, codes[k])
    {
      assert codes[k] in codes;
    }
  }

  lemma {:induction false} SameUnits(d: Bytes, codes: seq<AnnexB.Code>)
    requires CodeChain(d, codes)
    ensures UnitsBehind(d, Starts(codes)) == AnnexB.Units(d, codes)
  {
    if codes != [] {
      assert AnnexB.IsCode(d, codes[0]);
      var later := codes[1..];
      assert CodeChain(d, later) by {
        assert forall k :: 0 <= k < |later| ==> later[k] == codes[k + 1];
      }
      SameUnits(d, later);
      assert DataStart(d, codes[0].start) == codes[0].data;
    }
  }

  predicate HasCode(d: Bytes) {
    exists i :: 0 <= i < |d| && Code3At(d, i)
  }

  /**
   * The look-ahead and the look-back splitter return the same units exactly on the empty string
   * and on the data that holds a start code and does not end in a bare three-byte one. Data
   * without a code is one unit to the first and none to the second; a bare code at the end is
   * data to the first and a code to the second.
   */
  lemma SplittersAgree(d: Bytes)
    ensures Units(d) == AnnexB.Split(d) <==> d == [] || (HasCode(d) && !EndsBare(d))
  {
    var codes := AnnexB.Codes(d, 0);
    CodesAreChain(d);
    SameStarts(d, 0);
    if EndsBare(d) {
      if codes == [] {
        assert Positions(d, 0) == [|d| - 3];
      } else {
        BareEndShortens(d, codes);
      }
    } else {
      assert Starts(codes) + [] == Starts(codes);
      SameUnits(d, codes);
      CodesIffHasCode(d);
    }
  }

  lemma CodesIffHasCode(d: Bytes)
    requires !EndsBare(d)
    ensures AnnexB.Codes(d, 0) != [] <==> HasCode(d)
  {
    AnnexB.ScanFindsExactlyTheCodes(d);
    var codes := AnnexB.Codes(d, 0);
    if codes != [] {
      var c := codes[0];
      assert c in codes && Code3At(d, c.data - 3);
    }
    if HasCode(d) {
      var i :| 0 <= i < |d| && Code3At(d, i);
      if i > 0 && d[i - 1] == 0 {
        assert AnnexB.IsCode(d, AnnexB.Code(i - 1, i + 3));
      } else {
        assert AnnexB.IsCode(d, AnnexB.Code(i, i + 3));
      }
    }
  }

  /** Taking the bare code at the end for a code costs the last unit three bytes. */
  lemma {:induction false} BareEndShortens(d: Bytes, codes: seq<AnnexB.Code>)
    requires CodeChain(d, codes) && EndsBare(d) && codes != []
    ensures TotalLength(UnitsBehind(d, Starts(codes) + [|d| - 3])) + 3 == TotalLength(AnnexB.Units(d, codes))
  {
    var c := codes[0];
    var later := codes[1..];
    var tail := Starts(later) + [|d| - 3];
    CodeBeforeBareEnd(d, c);
    assert Starts(codes) + [|d| - 3] == [c.start] + tail;
    assert codes == [c] + later;
    if later == [] {
      assert codes == [c];
      BareEndOfLastUnit(d, c);
    } else {
      ChainTail(d, codes);
      BareEndShortens(d, later);
      assert tail[0] == later[0].start;
      FirstUnits(d, c, later, tail);
    }
  }

  lemma ChainTail(d: Bytes, codes: seq<AnnexB.Code>)
    requires CodeChain(d, codes) && |codes| > 1
    ensures CodeChain(d, codes[1..])
    ensures codes[0].data <= codes[1].start <= |d|
  {
    var later := codes[1..];
    assert forall k :: 0 <= k < |later| ==> later[k] == codes[k + 1];
    assert AnnexB.IsCode(d, codes[1]);
  }

  lemma CodeBeforeBareEnd(d: Bytes, c: AnnexB.Code)
    requires AnnexB.IsCode(d, c) && EndsBare(d)
    ensures c.start < c.data <= |d| - 3 && DataStart(d, c.start) == c.data
  {
  }

  lemma FirstUnits(d: Bytes, c: AnnexB.Code, later: seq<AnnexB.Code>, tail: seq<nat>)
    requires DataStart(d, c.start) == c.data < |d|
    requires later != [] && tail != [] && tail[0] == later[0].start && c.data <= tail[0] <= |d|
    ensures TotalLength(UnitsBehind(d, [c.start] + tail)) == tail[0] - c.data + TotalLength(UnitsBehind(d, tail))
    ensures TotalLength(AnnexB.Units(d, [c] + later)) == tail[0] - c.data + TotalLength(AnnexB.Units(d, later))
  {
    var unit := d[c.data..tail[0]];
    assert UnitsBehind(d, [c.start] + tail) == AnnexB.Emit(unit) + UnitsBehind(d, tail) by {
      assert ([c.start] + tail)[1..] == tail;
    }
    assert AnnexB.Units(d, [c] + later) == AnnexB.Emit(unit) + AnnexB.Units(d, later) by {
      assert ([c] + later)[1..] == later;
    }
    LengthBehindUnit(unit, UnitsBehind(d, tail));
    LengthBehindUnit(unit, AnnexB.Units(d, later));
  }

  lemma BareEndOfLastUnit(d: Bytes, c: AnnexB.Code)
    requires EndsBare(d) && DataStart(d, c.start) == c.data <= |d| - 3
    ensures TotalLength(UnitsBehind(d, [c.start] + [|d| - 3])) + 3 == TotalLength(AnnexB.Units(d, [c]))
  {
    var bare := [|d| - 3];
    assert ([c.start] + bare)[1..] == bare && bare[1..] == [];
    assert DataStart(d, |d| - 3) == |d|;
    assert UnitsBehind(d, bare) == [];
    LengthBehindUnit(d[c.data..|d| - 3], UnitsBehind(d, bare));
    assert [c][1..] == [];
    LengthBehindUnit(d[c.data..], AnnexB.Units(d, []));
  }

  lemma LengthBehindUnit(unit: Bytes, units: seq<Bytes>)
    ensures TotalLength(AnnexB.Emit(unit) + units) == |unit| + TotalLength(units)
  {
    if unit == [] {
      assert AnnexB.Emit(unit) + units == units;
    } else {
      assert (AnnexB.Emit(unit) + units)[1..] == units;
    }
  }

  // --- Writing and reading back ---

  /** A segment as recorders write it: every unit behind a four-byte start code. */
  function Written(units: seq<Bytes>): Bytes {
    if units == [] then [] else CODE4 + units[0] + Written(units[1..])
  }

  predicate Recordable(units: seq<Bytes>) {
    forall k :: 0 <= k < |units| ==> units[k] != [] && AnnexB.NoCode(units[k])
  }

  /** Splitting a written segment gives the units back if and only if none is empty or holds a code. */
  lemma ParseInvertsWritten(units: seq<Bytes>)
    ensures Units(Written(units)) == units <==> Recordable(units)
  {
    if Recordable(units) && units != [] {
      ParseRecordable(units);
    }
    ParsedUnitsHoldNoCode(Written(units));
  }

  lemma ParseRecordable(units: seq<Bytes>)
    requires Recordable(units) && units != []
    ensures Units(Written(units)) == units
  {
    var d := Written(units);
    var behind := units[0] + Written(units[1..]);
    assert d == CODE4 + behind;
    WrittenDoesNotEndBare(units);
    assert Code3At(d, 1);
    SplittersAgree(d);
    AnnexB.SplitBehindFirstCode(behind);
    CutWritten(units);
  }

  lemma NoCodeAtFullSeam(n: Bytes, next: Bytes)
    requires AnnexB.NoCode(n) && n != [] && CODE4 <= next
    ensures !(CODE3 <= n + next) && !(CODE4 <= n + next)
  {
    var d := n + next;
    assert !Code3At(n, 0);
    assert |n| >= 2 ==> !Code3At(n, 1);
    assert next[0] == 0 && next[1] == 0 && next[2] == 0 && next[3] == 1;
    assert forall k :: 0 <= k < |n| ==> d[k] == n[k];
    assert forall k :: 0 <= k < |next| ==> d[|n| + k] == next[k];
  }

  lemma {:induction false} CutFullCode(unit: Bytes, n: Bytes, rest: Bytes)
    requires AnnexB.NoCode(n)
    ensures AnnexB.Cut(unit, n + CODE4 + rest) == AnnexB.Emit(unit + n) + AnnexB.Cut([], rest)
    decreases |n|
  {
    var d := n + CODE4 + rest;
    if n == [] {
      assert d == CODE4 + rest && d[4..] == rest;
      assert unit + n == unit;
    } else {
      assert d[1..] == n[1..] + CODE4 + rest;
      assert d == n + (CODE4 + rest);
      NoCodeAtFullSeam(n, CODE4 + rest);
      AnnexB.NoCodeInTail(n);
      CutFullCode(unit + [n[0]], n[1..], rest);
      assert unit + [n[0]] + n[1..] == unit + n;
    }
  }

  lemma {:induction false} CutWritten(units: seq<Bytes>)
    requires units != [] && Recordable(units)
    ensures AnnexB.Cut([], units[0] + Written(units[1..])) == units
  {
    var n := units[0];
    assert [] + n == n;
    if |units| == 1 {
      assert n + Written(units[1..]) == n;
      AnnexB.CutLast([], n);
    } else {
      var rest := units[1] + Written(units[1..][1..]);
      assert n + Written(units[1..]) == n + CODE4 + rest;
      CutFullCode([], n, rest);
      CutWritten(units[1..]);
    }
  }

  lemma {:induction false} WrittenDoesNotEndBare(units: seq<Bytes>)
    requires Recordable(units)
    ensures !EndsBare(Written(units))
  {
    if units != [] {
      var d := Written(units);
      var n := units[0];
      var rest := Written(units[1..]);
      if |units| > 1 {
        WrittenDoesNotEndBare(units[1..]);
        assert |rest| >= 5;
        assert d[|d| - |rest|..] == rest;
      } else {
        assert d == CODE4 + n;
        assert |n| >= 3 ==> !Code3At(n, |n| - 3);
      }
    }
  }

  /** Whatever the data, no unit the look-back splitter returns holds a start code. */
  lemma ParsedUnitsHoldNoCode(d: Bytes)
    ensures Recordable(Units(d))
  {
    UnitsHoldNoCode(d, 0);
  }

  lemma {:induction false} UnitsHoldNoCode(d: Bytes, i: nat)
    ensures Recordable(UnitsBehind(d, Positions(d, i)))
    decreases |d| - i
  {
    if i + 2 < |d| {
      if Code3At(d, i) {
        UnitsHoldNoCode(d, i + 3);
        var positions := Positions(d, i);
        assert positions[1..] == Positions(d, i + 3);
        assert DataStart(d, positions[0]) == i + 3;
        NoCodeBefore(d, i + 3);
      } else {
        UnitsHoldNoCode(d, i + 1);
      }
    }
  }

  lemma NoCodeBefore(d: Bytes, i: nat)
    requires i <= |d|
    ensures
      var end := DataEnd(d, Positions(d, i));
      i <= end <= |d| ==> AnnexB.NoCode(d[i..end])
  {
    var end := DataEnd(d, Positions(d, i));
    NothingBeforeFirst(d, i);
    if i <= end <= |d| {
      forall p | 0 <= p < end - i && Code3At(d[i..end], p)
        ensures false
      {
        assert Code3At(d, i + p);
      }
    }
  }

  lemma {:induction false} NothingBeforeFirst(d: Bytes, i: nat)
    ensures forall p :: i <= p && p + 3 <= DataEnd(d, Positions(d, i)) ==> !Code3At(d, p)
    decreases |d| - i
  {
    if i + 2 < |d| && !Code3At(d, i) {
      NothingBeforeFirst(d, i + 1);
    }
  }

  // --- Access units ---

  predicate IsSlice(n: Nalu) {
    1 <= n.naluType <= 5
  }

  /** Every slice closes a group; what no slice follows is dropped. */
  function Groups(nalus: seq<Nalu>, pending: seq<Bytes>): seq<(seq<Bytes>, bool)> {
    if nalus == [] then []
    else if IsSlice(nalus[0]) then [(pending + [nalus[0].data], nalus[0].isIdr)] + Groups(nalus[1..], [])
    else Groups(nalus[1..], pending + [nalus[0].data])
  }

  method GroupAus(nalus: seq<Nalu>) returns (groups: seq<(seq<Bytes>, bool)>)
    ensures groups == Groups(nalus, [])
  {
    groups := [];
    var pending := [];
    for i := 0 to |nalus|
      invariant groups + Groups(nalus[i..], pending) == Groups(nalus, [])
    {
      var nalu := nalus[i];
      assert nalus[i..][1..] == nalus[i + 1..];
      var isSlice := 1 <= nalu.naluType <= 5;
      if isSlice {
        var group := pending;
        pending := [];
        group := group + [nalu.data];
        groups := groups + [(group, nalu.isIdr)];
      } else {
        pending := pending + [nalu.data];
      }
    }
  }

  function TypeOf(unit: Bytes): nat
    requires unit != []
  {
    unit[0] % 32
  }

  /** One access unit as an encoder emits it: parameter sets and the like, then one slice. */
  predicate IsAccessUnit(au: seq<Bytes>) {
    && au != [] && Recordable(au)
    && 1 <= TypeOf(au[|au| - 1]) <= 5
    && forall k :: 0 <= k < |au| - 1 ==> !(1 <= TypeOf(au[k]) <= 5)
  }

  predicate AccessUnits(aus: seq<seq<Bytes>>) {
    forall k :: 0 <= k < |aus| ==> IsAccessUnit(aus[k])
  }

  function Flatten(aus: seq<seq<Bytes>>): seq<Bytes> {
    if aus == [] then [] else aus[0] + Flatten(aus[1..])
  }

  function Flagged(aus: seq<seq<Bytes>>): seq<(seq<Bytes>, bool)> {
    if aus == [] then []
    else
      var last := if aus[0] == [] then [] else aus[0][|aus[0]| - 1];
      [(aus[0], last != [] && TypeOf(last) == 5)] + Flagged(aus[1..])
  }

  function ReadAus(d: Bytes): seq<(seq<Bytes>, bool)> {
    Groups(Nalus(Units(d)), [])
  }

  /**
   * Reading a written segment gives back the access units, each with its key-frame flag, if and
   * only if each of them consists of non-slices followed by exactly one slice and none of its
   * units is empty or holds a start code.
   */
  lemma ReadInvertsWritten(aus: seq<seq<Bytes>>)
    ensures ReadAus(Written(Flatten(aus))) == Flagged(aus) <==> AccessUnits(aus)
  {
    var units := Flatten(aus);
    if AccessUnits(aus) {
      FlattenRecordable(aus);
      ParseInvertsWritten(units);
      GroupAccessUnits(aus);
    }
    if ReadAus(Written(units)) == Flagged(aus) {
      ParsedUnitsHoldNoCode(Written(units));
      GroupsAreAccessUnits(Units(Written(units)), []);
      FlaggedIndex(aus);
    }
  }

  lemma {:induction false} FlaggedIndex(aus: seq<seq<Bytes>>)
    ensures |Flagged(aus)| == |aus|
    ensures forall k :: 0 <= k < |aus| ==> Flagged(aus)[k].0 == aus[k]
  {
    if aus != [] {
      FlaggedIndex(aus[1..]);
    }
  }

  lemma {:induction false} FlattenRecordable(aus: seq<seq<Bytes>>)
    requires AccessUnits(aus)
    ensures Recordable(Flatten(aus))
  {
    if aus != [] {
      assert forall k :: 0 <= k < |aus| - 1 ==> aus[1..][k] == aus[k + 1];
      FlattenRecordable(aus[1..]);
      assert IsAccessUnit(aus[0]);
    }
  }

  lemma {:induction false} GroupAccessUnits(aus: seq<seq<Bytes>>)
    requires AccessUnits(aus) && Recordable(Flatten(aus))
    ensures Groups(Nalus(Flatten(aus)), []) == Flagged(aus)
  {
    if aus != [] {
      var au, later := aus[0], aus[1..];
      assert IsAccessUnit(au);
      assert AccessUnits(later) by {
        assert forall k :: 0 <= k < |later| ==> later[k] == aus[k + 1];
      }
      FlattenRecordable(later);
      GroupAccessUnits(later);
      GroupFirst(au, Flatten(later));
    }
  }

  lemma GroupFirst(au: seq<Bytes>, rest: seq<Bytes>)
    requires IsAccessUnit(au) && Recordable(rest)
    ensures
      Recordable(au + rest) &&
      Groups(Nalus(au + rest), []) == [(au, TypeOf(au[|au| - 1]) == 5)] + Groups(Nalus(rest), [])
  {
    GroupOne([], au, rest);
    assert [] + au == au;
  }

  /** Walking through an access unit collects it whole. */
  lemma {:induction false} GroupOne(pending: seq<Bytes>, au: seq<Bytes>, rest: seq<Bytes>)
    requires IsAccessUnit(au) && Recordable(rest)
    ensures
      Recordable(au + rest) &&
      Groups(Nalus(au + rest), pending) ==
      [(pending + au, TypeOf(au[|au| - 1]) == 5)] + Groups(Nalus(rest), [])
    decreases |au|
  {
    var all := au + rest;
    assert Nalus(all)[0] == NaluOf(au[0]);
    if |au| == 1 {
      assert all[1..] == rest && Nalus(all)[1..] == Nalus(rest);
      assert au == [au[0]];
    } else {
      var later := au[1..];
      assert all[1..] == later + rest && Nalus(all)[1..] == Nalus(later + rest);
      assert forall k :: 0 <= k < |later| ==> later[k] == au[k + 1];
      GroupOne(pending + [au[0]], later, rest);
      assert pending + [au[0]] + later == pending + au;
    }
  }

  /** Whatever is grouped, each group is a run of non-slices closed by one slice. */
  lemma {:induction false} GroupsAreAccessUnits(units: seq<Bytes>, pending: seq<Bytes>)
    requires Recordable(units) && Recordable(pending)
    requires forall k :: 0 <= k < |pending| ==> !(1 <= TypeOf(pending[k]) <= 5)
    ensures forall k :: 0 <= k < |Groups(Nalus(units), pending)| ==> IsAccessUnit(Groups(Nalus(units), pending)[k].0)
    decreases |units|
  {
    if units != [] {
      assert Nalus(units)[0] == NaluOf(units[0]) && Nalus(units)[1..] == Nalus(units[1..]);
      if IsSlice(NaluOf(units[0])) {
        GroupsAreAccessUnits(units[1..], []);
        var group := pending + [units[0]];
        assert IsAccessUnit(group);
      } else {
        GroupsAreAccessUnits(units[1..], pending + [units[0]]);
      }
    }
  }

  /** A unit's type is its low five bits; 5 is a key slice, 7 and 8 are parameter sets, 9 is a delimiter. */
  lemma KindsOfUnits(units: seq<Bytes>, k: nat, type_: nat, upper: nat)
    requires k < |units| && forall i :: 0 <= i < |units| ==> units[i] != []
    requires type_ < 32 && units[k][0] == upper * 32 + type_
    ensures
      var n := Nalus(units)[k];
      && n.naluType == type_ && n.data == units[k]
      && (n.isIdr <==> type_ == 5) && (n.isSps <==> type_ == 7) && (n.isPps <==> type_ == 8)
      && (n.isAud <==> type_ == 9)
  {
  }
}
