/** The frame list of a playback session: `build_frames` of src/playback.rs. */
module Frames {
  import opened Octets
  import opened Results
  import opened Sidecar

  /** A recording segment; its units are absent when the file cannot be read. */
  datatype Recording = Recording(startMs: nat, endMs: nat, aus: Option<seq<RecordedAu>>)

  datatype Frame = Frame(absMs: nat, isKey: bool, nalus: seq<Bytes>)

  function FrameOf(rec: Recording, au: RecordedAu): Frame {
    Frame(rec.startMs + au.ptsOffset, au.isKeyFrame, au.nalus)
  }

  // --- What the loops compute ---

  /** The inner loop from one unit on: skip early units, stop behind the end, wait for a key frame. */
  function Walk(rec: Recording, aus: seq<RecordedAu>, startMs: nat, endMs: nat, sentKeyframe: bool): seq<Frame>
    decreases |aus|
  {
    if aus == [] then []
    else
      var au := aus[0];
      var frame := FrameOf(rec, au);
      if au.ptsOffset < Max(startMs - rec.startMs, 0) then Walk(rec, aus[1..], startMs, endMs, sentKeyframe)
      else if frame.absMs > endMs then []
      else if !sentKeyframe && !au.isKeyFrame then Walk(rec, aus[1..], startMs, endMs, false)
      else [frame] + Walk(rec, aus[1..], startMs, endMs, true)
  }

  function Selected(recs: seq<Recording>, startMs: nat, endMs: nat): seq<Frame> {
    if recs == [] then []
    else if recs[0].endMs < startMs then Selected(recs[1..], startMs, endMs)
    else if recs[0].startMs > endMs then []
    else
      match recs[0].aus
      case None => Selected(recs[1..], startMs, endMs)
      case Some(aus) => Walk(recs[0], aus, startMs, endMs, false) + Selected(recs[1..], startMs, endMs)
  }

  method BuildFrames(recs: seq<Recording>, startMs: nat, endMs: nat) returns (frames: seq<Frame>)
    ensures frames == Selected(recs, startMs, endMs)
  {
    frames := [];
    for i := 0 to |recs|
      invariant frames + Selected(recs[i..], startMs, endMs) == Selected(recs, startMs, endMs)
    {
      var rec := recs[i];
      assert recs[i..][1..] == recs[i + 1..];
      if rec.endMs < startMs {
        continue;
      }
      if rec.startMs > endMs {
        break;
      }
      if rec.aus.None? {
        continue;
      }
      frames := AddFrames(frames, rec, rec.aus.value, startMs, endMs);
    }
  }

  /** The inner loop. */
  method AddFrames(before: seq<Frame>, rec: Recording, aus: seq<RecordedAu>, startMs: nat, endMs: nat)
    returns (frames: seq<Frame>)
    ensures frames == before + Walk(rec, aus, startMs, endMs, false)
  {
    frames := before;
    var skipBeforeMs := Max(startMs - rec.startMs, 0);
    var sentKeyframe := false;
    for k := 0 to |aus|
      invariant
        frames + Walk(rec, aus[k..], startMs, endMs, sentKeyframe) == before + Walk(rec, aus, startMs, endMs, false)
    {
      var au := aus[k];
      assert aus[k..][1..] == aus[k + 1..];
      var auMs := au.ptsOffset;
      if auMs < skipBeforeMs {
        continue;
      }
      var absMs := rec.startMs + auMs;
      if absMs > endMs {
        break;
      }
      if !sentKeyframe {
        if !au.isKeyFrame {
          continue;
        }
        sentKeyframe := true;
      }
      frames := frames + [Frame(absMs, au.isKeyFrame, au.nalus)];
    }
  }

  // --- What they mean ---

  predicate UnitsOrdered(aus: seq<RecordedAu>) {
    forall i, j :: 0 <= i < j < |aus| ==> aus[i].ptsOffset <= aus[j].ptsOffset
  }

  /** Segments follow each other in time, and each holds its units, in order. */
  predicate WellRecorded(recs: seq<Recording>) {
    && (forall i :: 0 <= i < |recs| ==> recs[i].startMs <= recs[i].endMs)
    && (forall i, j :: 0 <= i < j < |recs| ==> recs[i].endMs <= recs[j].startMs)
    && (forall i :: 0 <= i < |recs| && recs[i].aus.Some? ==> UnitsInside(recs[i], recs[i].aus.value))
  }

  predicate UnitsInside(rec: Recording, aus: seq<RecordedAu>) {
    UnitsOrdered(aus) && forall k :: 0 <= k < |aus| ==> rec.startMs + aus[k].ptsOffset <= rec.endMs
  }

  /** All units in the closed interval. */
  function InRange(rec: Recording, aus: seq<RecordedAu>, startMs: nat, endMs: nat): seq<Frame> {
    if aus == [] then []
    else
      var frame := Frame(rec.startMs + aus[0].ptsOffset, aus[0].isKeyFrame, aus[0].nalus);
      if startMs <= frame.absMs <= endMs then [frame] + InRange(rec, aus[1..], startMs, endMs)
      else InRange(rec, aus[1..], startMs, endMs)
  }

  /** The frames from the first key frame on. */
  function FromKey(frames: seq<Frame>): seq<Frame> {
    if frames == [] || frames[0].isKey then frames else FromKey(frames[1..])
  }

  /** For every readable segment, its in-range units from the first in-range key frame on. */
  function Requested(recs: seq<Recording>, startMs: nat, endMs: nat): seq<Frame> {
    if recs == [] then []
    else
      match recs[0].aus
      case None => Requested(recs[1..], startMs, endMs)
      case Some(aus) => FromKey(InRange(recs[0], aus, startMs, endMs)) + Requested(recs[1..], startMs, endMs)
  }

  lemma OrderedTail(aus: seq<RecordedAu>)
    requires UnitsOrdered(aus) && aus != []
    ensures UnitsOrdered(aus[1..])
    ensures forall k :: 0 <= k < |aus| ==> aus[0].ptsOffset <= aus[k].ptsOffset
  {
    var later := aus[1..];
    assert forall k :: 0 <= k < |later| ==> later[k] == aus[k + 1];
  }

  lemma {:induction false} WalkIsRequested(
    rec: Recording, aus: seq<RecordedAu>, startMs: nat, endMs: nat, sentKeyframe: bool)
    requires UnitsOrdered(aus)
    ensures
      Walk(rec, aus, startMs, endMs, sentKeyframe) ==
      if sentKeyframe then InRange(rec, aus, startMs, endMs) else FromKey(InRange(rec, aus, startMs, endMs))
    decreases |aus|
  {
    if aus != [] {
      var frame := FrameOf(rec, aus[0]);
      var later := InRange(rec, aus[1..], startMs, endMs);
      OrderedTail(aus);
      if frame.absMs < startMs {
        WalkIsRequested(rec, aus[1..], startMs, endMs, sentKeyframe);
      } else if frame.absMs > endMs {
        NoneInRange(rec, aus, startMs, endMs);
      } else {
        WalkIsRequested(rec, aus[1..], startMs, endMs, sentKeyframe || frame.isKey);
        FromKeyStep(frame, later);
      }
    }
  }

  lemma FromKeyStep(frame: Frame, later: seq<Frame>)
    ensures FromKey([frame] + later) == if frame.isKey then [frame] + later else FromKey(later)
  {
    assert ([frame] + later)[1..] == later;
  }

  lemma {:induction false} NoneInRange(rec: Recording, aus: seq<RecordedAu>, startMs: nat, endMs: nat)
    requires forall k :: 0 <= k < |aus| ==> !(startMs <= FrameOf(rec, aus[k]).absMs <= endMs)
    ensures InRange(rec, aus, startMs, endMs) == []
    decreases |aus|
  {
    if aus != [] {
      NoneInRange(rec, aus[1..], startMs, endMs);
    }
  }

  /**
   * The loops, with their early exits, select exactly what was requested: no in-range unit behind
   * a segment's first in-range key frame is missed, and nothing else is taken.
   */
  lemma {:induction false} FramesAreRequested(recs: seq<Recording>, startMs: nat, endMs: nat)
    requires WellRecorded(recs)
    ensures Selected(recs, startMs, endMs) == Requested(recs, startMs, endMs)
  {
    if recs != [] {
      var rec, later := recs[0], recs[1..];
      RecordedTail(recs);
      FramesAreRequested(later, startMs, endMs);
      if rec.endMs >= startMs && rec.startMs > endMs {
        NothingBehindEnd(recs, startMs, endMs);
      } else if rec.aus.Some? {
        if rec.endMs < startMs {
          NoneInRange(rec, rec.aus.value, startMs, endMs);
        } else {
          WalkIsRequested(rec, rec.aus.value, startMs, endMs, false);
        }
      }
    }
  }

  lemma RecordedTail(recs: seq<Recording>)
    requires WellRecorded(recs) && recs != []
    ensures WellRecorded(recs[1..])
    ensures forall k :: 0 <= k < |recs| ==> recs[0].startMs <= recs[k].startMs
    ensures |recs| > 1 ==> recs[0].endMs <= recs[1].startMs
    ensures recs[0].aus.Some? ==> UnitsInside(recs[0], recs[0].aus.value)
  {
    var later := recs[1..];
    assert forall k :: 0 <= k < |later| ==> later[k] == recs[k + 1];
  }

  lemma {:induction false} NothingBehindEnd(recs: seq<Recording>, startMs: nat, endMs: nat)
    requires forall i :: 0 <= i < |recs| ==> recs[i].startMs > endMs
    ensures Requested(recs, startMs, endMs) == []
  {
    if recs != [] {
      NothingBehindEnd(recs[1..], startMs, endMs);
      if recs[0].aus.Some? {
        NoneInRange(recs[0], recs[0].aus.value, startMs, endMs);
      }
    }
  }

  // --- Order ---

  predicate TimeOrdered(frames: seq<Frame>) {
    forall i, j :: 0 <= i < j < |frames| ==> frames[i].absMs <= frames[j].absMs
  }

  predicate OrderedWithin(frames: seq<Frame>, lo: int, hi: int) {
    TimeOrdered(frames) && forall k :: 0 <= k < |frames| ==> lo <= frames[k].absMs <= hi
  }

  /** All frames lie in the requested interval and in non-decreasing time order. */
  lemma FramesOrdered(recs: seq<Recording>, startMs: nat, endMs: nat)
    requires WellRecorded(recs)
    ensures OrderedWithin(Selected(recs, startMs, endMs), startMs, endMs)
  {
    FramesAreRequested(recs, startMs, endMs);
    RequestedOrdered(recs, startMs, endMs);
  }

  function Earliest(recs: seq<Recording>, startMs: nat): nat {
    if recs == [] then startMs else Max(startMs, recs[0].startMs)
  }

  lemma {:induction false} RequestedOrdered(recs: seq<Recording>, startMs: nat, endMs: nat)
    requires WellRecorded(recs)
    ensures OrderedWithin(Requested(recs, startMs, endMs), Earliest(recs, startMs), endMs)
  {
    if recs != [] {
      var rec, later := recs[0], recs[1..];
      RecordedTail(recs);
      RequestedOrdered(later, startMs, endMs);
      var rest := Requested(later, startMs, endMs);
      match rec.aus
      case None =>
      case Some(aus) =>
        FromKeyOrdered(rec, aus, startMs, endMs);
        ConcatOrdered(FromKey(InRange(rec, aus, startMs, endMs)), rest, Earliest(recs, startMs), rec.endMs, endMs);
    }
  }

  lemma FromKeyOrdered(rec: Recording, aus: seq<RecordedAu>, startMs: nat, endMs: nat)
    requires UnitsInside(rec, aus)
    ensures
      OrderedWithin(FromKey(InRange(rec, aus, startMs, endMs)), Max(startMs, rec.startMs), Min(rec.endMs, endMs))
  {
    InRangeOrdered(rec, aus, startMs, endMs);
    FromKeyIsSuffix(InRange(rec, aus, startMs, endMs));
    hide InRange, FromKey;
  }

  lemma ConcatOrdered(a: seq<Frame>, b: seq<Frame>, lo: int, mid: int, hi: int)
    requires OrderedWithin(a, lo, Min(mid, hi)) && OrderedWithin(b, Max(lo, mid), hi)
    ensures OrderedWithin(a + b, lo, hi)
  {
  }

  lemma {:induction false} InRangeOrdered(rec: Recording, aus: seq<RecordedAu>, startMs: nat, endMs: nat)
    requires UnitsInside(rec, aus)
    ensures
      OrderedWithin(InRange(rec, aus, startMs, endMs),
                    Max(startMs, rec.startMs + (if aus == [] then 0 else aus[0].ptsOffset)),
                    Min(rec.endMs, endMs))
    decreases |aus|
  {
    if aus != [] {
      OrderedTail(aus);
      InRangeOrdered(rec, aus[1..], startMs, endMs);
      PrependOrdered(FrameOf(rec, aus[0]), InRange(rec, aus[1..], startMs, endMs), startMs, Min(rec.endMs, endMs));
    }
  }

  lemma PrependOrdered(frame: Frame, later: seq<Frame>, lo: int, hi: int)
    requires OrderedWithin(later, Max(lo, frame.absMs), hi)
    ensures lo <= frame.absMs <= hi ==> OrderedWithin([frame] + later, Max(lo, frame.absMs), hi)
  {
  }

  lemma {:induction false} FromKeyIsSuffix(frames: seq<Frame>)
    ensures
      var kept := FromKey(frames);
      && |kept| <= |frames| && kept == frames[|frames| - |kept|..]
      && (kept != [] ==> kept[0].isKey)
      && forall k :: 0 <= k < |frames| - |kept| ==> !frames[k].isKey
  {
    var kept := FromKey(frames);
    if frames == [] || frames[0].isKey {
      assert kept == frames == frames[0..];
    } else {
      var later := frames[1..];
      FromKeyIsSuffix(later);
      var n := |later| - |kept|;
      assert later[n..] == frames[n + 1..];
      assert forall k :: 0 < k < n + 1 ==> frames[k] == later[k - 1];
    }
  }

  // --- The same for recordings in any order ---

  function At(rec: Recording, au: RecordedAu): nat {
    rec.startMs + au.ptsOffset
  }

  /** A unit not before the start, with a key frame among such units up to it and none of them behind the end. */
  predicate Chosen(rec: Recording, aus: seq<RecordedAu>, startMs: nat, endMs: nat, k: nat) {
    && k < |aus| && startMs <= At(rec, aus[k])
    && (forall j :: 0 <= j <= k && startMs <= At(rec, aus[j]) ==> At(rec, aus[j]) <= endMs)
    && (exists j :: 0 <= j <= k && startMs <= At(rec, aus[j]) && aus[j].isKeyFrame)
  }

  function ChosenFrom(rec: Recording, aus: seq<RecordedAu>, startMs: nat, endMs: nat, k: nat): seq<Frame>
    decreases |aus| - k
  {
    if k >= |aus| then []
    else
      (if Chosen(rec, aus, startMs, endMs, k) then [Frame(At(rec, aus[k]), aus[k].isKeyFrame, aus[k].nalus)] else [])
      + ChosenFrom(rec, aus, startMs, endMs, k + 1)
  }

  /** A segment that does not end before the start, with no such segment up to it that starts behind the end. */
  predicate Reached(recs: seq<Recording>, startMs: nat, endMs: nat, i: nat) {
    && i < |recs| && startMs <= recs[i].endMs
    && (forall j :: 0 <= j <= i && startMs <= recs[j].endMs ==> recs[j].startMs <= endMs)
  }

  function ReachedFrom(recs: seq<Recording>, startMs: nat, endMs: nat, i: nat): seq<Frame>
    decreases |recs| - i
  {
    if i >= |recs| then []
    else
      (if Reached(recs, startMs, endMs, i) && recs[i].aus.Some?
       then ChosenFrom(recs[i], recs[i].aus.value, startMs, endMs, 0) else [])
      + ReachedFrom(recs, startMs, endMs, i + 1)
  }

  /** Whatever the order and times of segments and units, the loops take the units chosen in the segments reached. */
  lemma SelectionIsExact(recs: seq<Recording>, startMs: nat, endMs: nat)
    ensures Selected(recs, startMs, endMs) == ReachedFrom(recs, startMs, endMs, 0)
  {
    assert recs[0..] == recs;
    SelectedFrom(recs, startMs, endMs, 0);
  }

  lemma {:induction false} SelectedFrom(recs: seq<Recording>, startMs: nat, endMs: nat, i: nat)
    requires i <= |recs| && forall j :: 0 <= j < i && startMs <= recs[j].endMs ==> recs[j].startMs <= endMs
    ensures Selected(recs[i..], startMs, endMs) == ReachedFrom(recs, startMs, endMs, i)
    decreases |recs| - i
  {
    if i < |recs| {
      var rec := recs[i];
      assert recs[i..][0] == rec && recs[i..][1..] == recs[i + 1..];
      if startMs <= rec.endMs && rec.startMs > endMs {
        NoneReached(recs, startMs, endMs, i, i);
      } else {
        SelectedFrom(recs, startMs, endMs, i + 1);
        if startMs <= rec.endMs && rec.aus.Some? {
          assert rec.aus.value[0..] == rec.aus.value;
          WalkFrom(rec, rec.aus.value, startMs, endMs, 0, false);
        }
      }
    }
  }

  lemma {:induction false} NoneReached(recs: seq<Recording>, startMs: nat, endMs: nat, stop: nat, i: nat)
    requires stop < |recs| && startMs <= recs[stop].endMs && recs[stop].startMs > endMs && stop <= i
    ensures ReachedFrom(recs, startMs, endMs, i) == []
    decreases |recs| - i
  {
    if i < |recs| {
      NoneReached(recs, startMs, endMs, stop, i + 1);
    }
  }

  lemma {:induction false} WalkFrom(
    rec: Recording, aus: seq<RecordedAu>, startMs: nat, endMs: nat, k: nat, seen: bool)
    requires k <= |aus| && forall j :: 0 <= j < k && startMs <= At(rec, aus[j]) ==> At(rec, aus[j]) <= endMs
    requires seen <==> exists j :: 0 <= j < k && startMs <= At(rec, aus[j]) && aus[j].isKeyFrame
    ensures Walk(rec, aus[k..], startMs, endMs, seen) == ChosenFrom(rec, aus, startMs, endMs, k)
    decreases |aus| - k
  {
    if k < |aus| {
      var au := aus[k];
      assert aus[k..][0] == au && aus[k..][1..] == aus[k + 1..];
      if startMs <= At(rec, au) && At(rec, au) > endMs {
        NoneChosen(rec, aus, startMs, endMs, k, k);
      } else {
        var seenNow := seen || (startMs <= At(rec, au) && au.isKeyFrame);
        WalkFrom(rec, aus, startMs, endMs, k + 1, seenNow);
        assert Chosen(rec, aus, startMs, endMs, k) <==> startMs <= At(rec, au) && seenNow;
      }
    }
  }

  lemma {:induction false} NoneChosen(
    rec: Recording, aus: seq<RecordedAu>, startMs: nat, endMs: nat, stop: nat, k: nat)
    requires stop < |aus| && startMs <= At(rec, aus[stop]) && At(rec, aus[stop]) > endMs && stop <= k
    ensures ChosenFrom(rec, aus, startMs, endMs, k) == []
    decreases |aus| - k
  {
    if k < |aus| {
      NoneChosen(rec, aus, startMs, endMs, stop, k + 1);
    }
  }
}
