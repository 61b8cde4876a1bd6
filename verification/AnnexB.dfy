/**
 * The look-ahead Annex B scanner and splitter of src/ps.rs, and the stream
 * the muxer feeds it.
 */
module AnnexB {
  import opened Octets

  /** A start code: where it begins and where the data behind it begins. */
  datatype Code = Code(start: nat, data: nat)

  /** The codes the look-ahead scan reports from index i on. */
  function Codes(d: Bytes, i: nat): seq<Code>
    decreases |d| - i
  {
    if i + 3 >= |d| then []
    else if Code4At(d, i) then [Code(i, i + 4)] + Codes(d, i + 4)
    else if Code3At(d, i) then [Code(i, i + 3)] + Codes(d, i + 3)
    else Codes(d, i + 1)
  }

  method FindNalStartCodes(data: Bytes) returns (results: seq<Code>)
    ensures results == Codes(data, 0)
  {
    results := [];
    var i := 0;
    while i + 3 < |data|
      invariant 0 <= i
      invariant results + Codes(data, i) == Codes(data, 0)
    {
      if data[i] == 0 && data[i + 1] == 0 && data[i + 2] == 0 && data[i + 3] == 1 {
        results := results + [Code(i, i + 4)];
        i := i + 4;
        continue;
      }
      if data[i] == 0 && data[i + 1] == 0 && data[i + 2] == 1 {
        results := results + [Code(i, i + 3)];
        i := i + 3;
        continue;
      }
      i := i + 1;
    }
  }

  /** What a start code is, without reference to any scan. */
  predicate IsCode(d: Bytes, c: Code) {
    || (Code4At(d, c.start) && c.data == c.start + 4)
    || (Code3At(d, c.start) && c.data == c.start + 3 && c.start + 3 < |d|
        && (c.start == 0 || d[c.start - 1] != 0))
  }

  predicate Increasing(codes: seq<Code>) {
    forall j, k :: 0 <= j < k < |codes| ==> codes[j].data <= codes[k].start
  }

  /**
   * The scan reports exactly the start codes, in order: each of them once, and a
   * three-byte code never where a four-byte code covers it.
   */
  lemma ScanFindsExactlyTheCodes(d: Bytes)
    ensures forall c :: c in Codes(d, 0) <==> IsCode(d, c)
    ensures Increasing(Codes(d, 0))
  {
    ScanFrom(d, 0);
  }

  lemma {:induction false} ScanFrom(d: Bytes, i: nat)
    requires i == 0 || i > |d| || d[i - 1] != 0 || !Code3At(d, i)
    ensures forall c :: c in Codes(d, i) <==> IsCode(d, c) && i <= c.start
    ensures Increasing(Codes(d, i))
    decreases |d| - i
  {
    if i + 3 < |d| {
      var next := NextScan(d, i);
      ScanFrom(d, next);
      var tail := Codes(d, next);
      var here := if next == i + 1 then [] else [Code(i, next)];
      assert Codes(d, i) == here + tail;
      hide Codes, NextScan, Code3At, Code4At, IsCode;
      forall c
        ensures c in here + tail <==> IsCode(d, c) && i <= c.start
      {
        NothingSkipped(d, i, c);
      }
    } else {
      forall c | IsCode(d, c) && i <= c.start
        ensures false
      {
      }
    }
  }

  function NextScan(d: Bytes, i: nat): (next: nat)
    requires i + 3 < |d|
    ensures i < next <= |d|
  {
    if Code4At(d, i) then i + 4 else if Code3At(d, i) then i + 3 else i + 1
  }

  /** Between two scan positions the only code is the one the first of them sees. */
  lemma NothingSkipped(d: Bytes, i: nat, c: Code)
    requires i + 3 < |d|
    requires i == 0 || d[i - 1] != 0 || !Code3At(d, i)
    ensures
      (IsCode(d, c) && i <= c.start) <==>
      ((NextScan(d, i) != i + 1 && c == Code(i, NextScan(d, i))) ||
       (IsCode(d, c) && NextScan(d, i) <= c.start))
  {
  }

  /** A unit is kept only when it holds at least one byte. */
  function Emit(unit: Bytes): seq<Bytes> {
    if unit == [] then [] else [unit]
  }

  /** Where the unit in front of the listed codes ends. */
  function UnitEnd(d: Bytes, codes: seq<Code>): nat {
    if codes == [] then |d| else codes[0].start
  }

  /** The data between each code and the next, empty units dropped. */
  function Units(d: Bytes, codes: seq<Code>): seq<Bytes> {
    if codes == [] then []
    else
      var end := UnitEnd(d, codes[1..]);
      (if codes[0].data < end <= |d| then [d[codes[0].data..end]] else []) + Units(d, codes[1..])
  }

  function Split(d: Bytes): seq<Bytes> {
    if Codes(d, 0) == [] then Emit(d) else Units(d, Codes(d, 0))
  }

  method SplitNalUnits(data: Bytes) returns (nalUnits: seq<Bytes>)
    ensures nalUnits == Split(data)
  {
    var startCodes := FindNalStartCodes(data);
    if |startCodes| == 0 {
      if |data| != 0 {
        return [data];
      }
      return [];
    }
    nalUnits := [];
    for i := 0 to |startCodes|
      invariant nalUnits + Units(data, startCodes[i..]) == Split(data)
    {
      var endPos := if i + 1 < |startCodes| then startCodes[i + 1].start else |data|;
      UnitsStep(data, i, nalUnits);
      if startCodes[i].data < endPos {
        nalUnits := nalUnits + [data[startCodes[i].data..endPos]];
      }
    }
    assert startCodes[|startCodes|..] == [];
  }

  lemma UnitsStep(d: Bytes, k: nat, before: seq<Bytes>)
    requires k < |Codes(d, 0)|
    ensures
      var codes := Codes(d, 0);
      var end := if k + 1 < |codes| then codes[k + 1].start else |d|;
      && codes[k].data <= |d| && end <= |d|
      && before + Units(d, codes[k..]) ==
         (if codes[k].data < end then before + [d[codes[k].data..end]] else before) + Units(d, codes[k + 1..])
  {
    ScanFindsExactlyTheCodes(d);
    var codes := Codes(d, 0);
    assert codes[k] in codes;
    if k + 1 < |codes| {
      assert codes[k + 1] in codes;
    }
    assert codes[k..][1..] == codes[k + 1..];
  }

  // --- The same split, read from the front of the data ---

  /** Cuts d, which follows the bytes `unit` already collected since the last start code. */
  function Cut(unit: Bytes, d: Bytes): seq<Bytes>
    decreases |d|
  {
    if |d| < 4 then Emit(unit + d)
    else if CODE4 <= d then Emit(unit) + Cut([], d[4..])
    else if CODE3 <= d then Emit(unit) + Cut([], d[3..])
    else Cut(unit + [d[0]], d[1..])
  }

  lemma {:induction false} CutIsUnits(d: Bytes, s: nat, i: nat)
    requires s <= i <= |d|
    ensures
      var e := UnitEnd(d, Codes(d, i));
      i <= e <= |d| && Cut(d[s..i], d[i..]) == Emit(d[s..e]) + Units(d, Codes(d, i))
    decreases |d| - i
  {
    if i + 3 >= |d| {
      assert d[s..i] + d[i..] == d[s..|d|];
    } else {
      var next := NextScan(d, i);
      CutStep(d, s, i);
      if next == i + 1 {
        CutIsUnits(d, s, next);
      } else {
        CutIsUnits(d, next, next);
        var codes := Codes(d, i);
        assert codes == [Code(i, next)] + Codes(d, next) && codes[1..] == Codes(d, next);
        var e := UnitEnd(d, codes[1..]);
        assert Emit(d[next..e]) == if next < e then [d[next..e]] else [];
        assert Units(d, codes) == Emit(d[next..e]) + Units(d, codes[1..]);
      }
    }
  }

  lemma CutStep(d: Bytes, s: nat, i: nat)
    requires s <= i && i + 3 < |d|
    ensures
      var next := NextScan(d, i);
      Cut(d[s..i], d[i..]) ==
      if next == i + 1 then Cut(d[s..next], d[next..]) else Emit(d[s..i]) + Cut(d[next..next], d[next..])
  {
    var r := d[i..];
    var next := NextScan(d, i);
    assert r[next - i..] == d[next..];
    assert CODE4 <= r <==> Code4At(d, i);
    assert CODE3 <= r <==> Code3At(d, i);
    if next == i + 1 {
      assert d[s..i] + [r[0]] == d[s..next];
    } else {
      assert d[next..next] == [];
    }
  }

  /** A stream that opens with a four-byte start code is cut behind it. */
  lemma SplitBehindFirstCode(d: Bytes)
    ensures Split(CODE4 + d) == Cut([], d)
  {
    var all := CODE4 + d;
    CutIsUnits(all, 4, 4);
    assert Code4At(all, 0);
    assert Codes(all, 0)[1..] == Codes(all, 4);
    assert all[4..] == d && all[4..4] == [];
  }

  // --- The muxer's elementary stream ---

  /** Every unit but the first is introduced by a three-byte code. */
  function Chain(nalus: seq<Bytes>): Bytes
    requires nalus != []
  {
    if |nalus| == 1 then nalus[0] else nalus[0] + CODE3 + Chain(nalus[1..])
  }

  /** The elementary stream: a four-byte code in front of the first unit only. */
  function Stream(nalus: seq<Bytes>): Bytes {
    if nalus == [] then [] else CODE4 + Chain(nalus)
  }

  predicate NoCode(n: Bytes) {
    forall p :: 0 <= p < |n| ==> !Code3At(n, p)
  }

  /** A bare three-byte code at the very end is as good as none: the scan stops short of it. */
  predicate NoCodeButBareEnd(n: Bytes) {
    forall p :: 0 <= p < |n| && Code3At(n, p) ==> p + 3 == |n| && (p == 0 || n[p - 1] != 0)
  }

  /** A unit that more units follow. */
  predicate CleanInner(n: Bytes) {
    n != [] && NoCode(n) && n[|n| - 1] != 0
  }

  predicate CleanLast(n: Bytes) {
    n != [] && NoCodeButBareEnd(n)
  }

  predicate Splittable(nalus: seq<Bytes>) {
    forall k :: 0 <= k < |nalus| ==> if k + 1 < |nalus| then CleanInner(nalus[k]) else CleanLast(nalus[k])
  }

  /**
   * Splitting gives back exactly the units that were joined if and only if every one of
   * them is clean. Nothing weaker will do: an empty unit is dropped, a code inside a unit
   * cuts it, and a trailing zero is taken for the first byte of the next start code.
   */
  lemma SplitInvertsStream(nalus: seq<Bytes>)
    ensures Split(Stream(nalus)) == nalus <==> Splittable(nalus)
  {
    if nalus != [] {
      SplitBehindFirstCode(Chain(nalus));
      if Splittable(nalus) {
        CutChain(nalus);
        TrimmingCleanUnits(nalus);
      }
      if Cut([], Chain(nalus)) == nalus {
        CutUnitsAreClean([], Chain(nalus));
        CutChain(nalus);
        TrimmedLength(nalus);
      }
    }
  }

  function Trim(n: Bytes): Bytes {
    if n != [] && n[|n| - 1] == 0 then n[..|n| - 1] else n
  }

  /** What is left of each unit once its successor's start code has been recognised. */
  function Trimmed(nalus: seq<Bytes>): seq<Bytes>
    requires nalus != []
  {
    if |nalus| == 1 then Emit(nalus[0]) else Emit(Trim(nalus[0])) + Trimmed(nalus[1..])
  }

  lemma {:induction false} CutInner(unit: Bytes, n: Bytes, rest: Bytes)
    requires NoCode(n) && rest != []
    ensures Cut(unit, n + CODE3 + rest) == Emit(unit + Trim(n)) + Cut([], rest)
    decreases |n|
  {
    var d := n + CODE3 + rest;
    if n == [] {
      assert d == CODE3 + rest && d[3..] == rest && d[2] == 1;
      assert unit + Trim(n) == unit;
    } else if n == [0] {
      assert d == CODE4 + rest && d[4..] == rest;
      assert unit + Trim(n) == unit;
    } else {
      assert d[0] == n[0] && d[1..] == n[1..] + CODE3 + rest;
      assert !(CODE3 <= d) && !(CODE4 <= d) by {
        NoCodeAtFront(n, CODE3 + rest);
        assert d == n + (CODE3 + rest);
      }
      assert NoCode(n[1..]) by {
        NoCodeInTail(n);
      }
      CutInner(unit + [n[0]], n[1..], rest);
      assert unit + [n[0]] + Trim(n[1..]) == unit + Trim(n);
    }
  }

  lemma NoCodeAtFront(n: Bytes, next: Bytes)
    requires NoCode(n) && n != [] && n != [0] && CODE3 <= next
    ensures !(CODE3 <= n + next) && !(CODE4 <= n + next)
  {
    var d := n + next;
    assert !Code3At(n, 0);
    if |n| >= 2 {
      assert !Code3At(n, 1);
    }
    assert next[0] == 0 && next[1] == 0 && next[2] == 1;
    assert forall k :: 0 <= k < 3 ==> d[|n| + k] == next[k];
    assert forall k :: 0 <= k < |n| ==> d[k] == n[k];
  }

  lemma NoCodeInTail(n: Bytes)
    requires n != []
    ensures NoCode(n) ==> NoCode(n[1..])
    ensures NoCodeButBareEnd(n) ==> NoCodeButBareEnd(n[1..])
  {
    var t := n[1..];
    forall p | 0 <= p < |t| && Code3At(t, p)
      ensures Code3At(n, p + 1)
    {
    }
  }

  lemma {:induction false} CutLast(unit: Bytes, n: Bytes)
    requires NoCodeButBareEnd(n)
    ensures Cut(unit, n) == Emit(unit + n)
    decreases |n|
  {
    if |n| >= 4 {
      assert !Code3At(n, 0);
      assert !Code4At(n, 0) by {
        assert Code4At(n, 0) ==> Code3At(n, 1);
      }
      NoCodeInTail(n);
      CutLast(unit + [n[0]], n[1..]);
      assert unit + [n[0]] + n[1..] == unit + n;
    }
  }

  /** With no code inside the units, the cut keeps each of them but for one trailing zero. */
  lemma {:induction false} CutChain(nalus: seq<Bytes>)
    requires nalus != []
    requires CleanUnits(nalus)
    ensures Cut([], Chain(nalus)) == Trimmed(nalus)
  {
    if |nalus| == 1 {
      CutLast([], nalus[0]);
      assert [] + nalus[0] == nalus[0];
    } else {
      var rest := Chain(nalus[1..]);
      assert nalus[1] != [];
      CutInner([], nalus[0], rest);
      assert [] + Trim(nalus[0]) == Trim(nalus[0]);
      CutChain(nalus[1..]);
    }
  }

  lemma {:induction false} TrimmingCleanUnits(nalus: seq<Bytes>)
    requires nalus != [] && Splittable(nalus)
    ensures Trimmed(nalus) == nalus
  {
    if |nalus| > 1 {
      TrimmingCleanUnits(nalus[1..]);
      assert CleanInner(nalus[0]);
    }
  }

  lemma {:induction false} TrimmedLength(nalus: seq<Bytes>)
    requires nalus != []
    ensures TotalLength(Trimmed(nalus)) <= TotalLength(nalus)
    ensures TotalLength(Trimmed(nalus)) == TotalLength(nalus) ==>
              forall k :: 0 <= k < |nalus| - 1 ==> Trim(nalus[k]) == nalus[k]
  {
    if |nalus| == 1 {
      assert nalus == [nalus[0]];
    } else {
      TrimmedLength(nalus[1..]);
      var first := Trim(nalus[0]);
      assert TotalLength(Trimmed(nalus)) == |first| + TotalLength(Trimmed(nalus[1..])) by {
        assert first != [] ==> (Emit(first) + Trimmed(nalus[1..]))[1..] == Trimmed(nalus[1..]);
        assert first == [] ==> Emit(first) + Trimmed(nalus[1..]) == Trimmed(nalus[1..]);
      }
      forall k | 0 <= k < |nalus| - 1 && TotalLength(Trimmed(nalus)) == TotalLength(nalus)
        ensures Trim(nalus[k]) == nalus[k]
      {
        if k > 0 {
          assert nalus[k] == nalus[1..][k - 1];
        }
      }
    }
  }

  predicate CleanUnits(units: seq<Bytes>) {
    && (forall k :: 0 <= k < |units| ==> units[k] != [] && NoCodeButBareEnd(units[k]))
    && (forall k :: 0 <= k < |units| - 1 ==> NoCode(units[k]))
  }

  lemma CleanUnitsPrepend(unit: Bytes, units: seq<Bytes>)
    requires NoCode(unit) && CleanUnits(units)
    ensures CleanUnits(Emit(unit) + units)
  {
  }

  /** Whatever the data, a unit that comes out of the cut is not empty and holds no code. */
  lemma {:induction false} CutUnitsAreClean(unit: Bytes, d: Bytes)
    requires forall p :: 0 <= p < |unit| ==> !Code3At(unit + d, p)
    requires Code3At(unit + d, |unit|) && unit != [] ==> unit[|unit| - 1] != 0
    ensures CleanUnits(Cut(unit, d))
    decreases |d|
  {
    if |d| < 4 {
    } else if CODE4 <= d || CODE3 <= d {
      forall p | 0 <= p < |unit| && Code3At(unit, p)
        ensures Code3At(unit + d, p)
      {
      }
      var rest := if CODE4 <= d then d[4..] else d[3..];
      assert [] + rest == rest;
      CutUnitsAreClean([], rest);
      CleanUnitsPrepend(unit, Cut([], rest));
    } else {
      assert (unit + [d[0]]) + d[1..] == unit + d;
      CutUnitsAreClean(unit + [d[0]], d[1..]);
      assert Cut(unit, d) == Cut(unit + [d[0]], d[1..]);
    }
  }
}
